/**
 Boxes over whole runs: whatever is published, followed, unfollowed and removed by anybody in any
 order, every box keeps the newest of all that was ever put into it, and nothing else touches it.
 */
module FanoutRuns {
  import opened Prelude
  import Ordered
  import opened SortedSet
  import opened TrimmedBox
  import opened Fanout

  datatype Event =
    | Publish(author: nat, e: Z, pages: Lister, sig: Signals)
    | Follow(follower: nat, author: nat, sig: Signals)
    | Unfollow(follower: nat, author: nat)
    | Remove(author: nat, member: string)

  ghost function After(cfg: Config, b: Boxes, ev: Event): Boxes
    requires cfg.Valid()
  {
    match ev
    case Publish(author, e, pages, sig) => Fanned(cfg, b, author, e, pages, sig).0
    case Follow(follower, author, sig) => Backfilled(cfg, b, follower, author, sig)
    case Unfollow(follower, author) => Cleaned(b, follower, author)
    case Remove(author, member) => Withdrawn(b, author, member)
  }

  ghost function Ran(cfg: Config, b: Boxes, evs: seq<Event>): Boxes
    requires cfg.Valid()
  {
    if |evs| == 0 then b else After(cfg, Ran(cfg, b, evs[..|evs| - 1]), evs[|evs| - 1])
  }

  // ---- What was put into a box ----

  /** Everything an author published in a run. */
  ghost function Published(evs: seq<Event>, author: nat): set<Z> {
    if |evs| == 0 then {}
    else Published(evs[..|evs| - 1], author) + PublishedBy(evs[|evs| - 1], author)
  }

  ghost function PublishedBy(ev: Event, author: nat): set<Z> {
    if ev.Publish? && ev.author == author then {ev.e} else {}
  }

  /** What one event puts into a user's inbox: a post whose push reaches the user, or a backfill. */
  ghost function Delivered(cfg: Config, b: Boxes, ev: Event, user: nat): set<Z>
    requires cfg.Valid()
  {
    match ev
    case Publish(author, e, pages, sig) => if user in Fanned(cfg, b, author, e, pages, sig).1.fans then {e} else {}
    case Follow(follower, author, sig) =>
      if follower == user && Judge(cfg, author in b.celebrities, sig) != Pull
      then Elements(Take(cfg.backfill, BoxOf(b.authorBox, author)))
      else {}
    case _ => {}
  }

  ghost function Received(cfg: Config, b: Boxes, evs: seq<Event>, user: nat): set<Z>
    requires cfg.Valid()
  {
    if |evs| == 0 then {}
    else
      var n := |evs| - 1;
      Received(cfg, b, evs[..n], user) + Delivered(cfg, Ran(cfg, b, evs[..n]), evs[n], user)
  }

  // ---- Author boxes ----

  /** One event and one author's box: it gains what the author publishes, and changes for nothing else. */
  lemma EventOnAuthorBox(cfg: Config, b: Boxes, ev: Event, author: nat)
    requires cfg.Valid() && !(ev.Remove? && ev.author == author)
    ensures BoxOf(After(cfg, b, ev).authorBox, author)
            == if ev.Publish? && ev.author == author then AddTrim(BoxOf(b.authorBox, author), [ev.e], cfg.authorBoxMax)
               else BoxOf(b.authorBox, author)
  {
    hide AddTrim, PushedTo, PushRun, Judge, AfterJudging, RevRange, Rem;
  }

  lemma TopWithOneMore(box: seq<Z>, added: set<Z>, e: Z, n: nat)
    requires HoldsTop(box, added, n) && OneScore(added + {e})
    ensures HoldsTop(AddTrim(box, [e], n), added + {e}, n)
  {
    hide HoldsTop, AddTrim, OneScore;
    assert Elements([e]) == {e};
    AddTrimKeepsTop(box, added, [e], n);
  }

  lemma OneScoreWithin(some: set<Z>, all: set<Z>)
    requires OneScore(all) && some <= all
    ensures OneScore(some)
  {
  }

  /**
   In any run an author's box holds the newest `authorBoxMax` of everything it was given before
   and everything that author has published since, as long as the author removes nothing.
   */
  lemma {:induction false} AuthorBoxKeepsTop(cfg: Config, b: Boxes, evs: seq<Event>, author: nat, added: set<Z>)
    requires cfg.Valid() && HoldsTop(BoxOf(b.authorBox, author), added, cfg.authorBoxMax)
    requires OneScore(added + Published(evs, author)) && forall m :: Remove(author, m) !in evs
    ensures HoldsTop(BoxOf(Ran(cfg, b, evs).authorBox, author), added + Published(evs, author), cfg.authorBoxMax)
  {
    hide After, HoldsTop, AddTrim, OneScore;
    if |evs| == 0 {
      assert added + {} == added;
    } else {
      var n := |evs| - 1;
      var ev, before := evs[n], added + Published(evs[..n], author);
      assert added + Published(evs, author) == before + PublishedBy(ev, author);
      OneScoreWithin(before, added + Published(evs, author));
      AuthorBoxKeepsTop(cfg, b, evs[..n], author, added);
      assert ev in evs;
      EventOnAuthorBox(cfg, Ran(cfg, b, evs[..n]), ev, author);
      if ev.Publish? && ev.author == author {
        TopWithOneMore(BoxOf(Ran(cfg, b, evs[..n]).authorBox, author), before, ev.e, cfg.authorBoxMax);
      } else {
        assert before + {} == before;
      }
    }
  }

  /** What others publish, and whoever follows or unfollows, leaves an author's box as it was. */
  lemma {:induction false} AuthorBoxIsOwn(cfg: Config, b: Boxes, evs: seq<Event>, author: nat)
    requires cfg.Valid()
    requires forall ev :: ev in evs ==> !((ev.Publish? || ev.Remove?) && ev.author == author)
    ensures BoxOf(Ran(cfg, b, evs).authorBox, author) == BoxOf(b.authorBox, author)
  {
    hide After;
    if |evs| > 0 {
      var n := |evs| - 1;
      AuthorBoxIsOwn(cfg, b, evs[..n], author);
      assert evs[n] in evs;
      EventOnAuthorBox(cfg, Ran(cfg, b, evs[..n]), evs[n], author);
    }
  }

  // ---- Inboxes ----

  /** However often a push lists a user, the inbox gains the post once. */
  lemma {:induction false} PushKeepsTop(inbox: map<nat, seq<Z>>, fans: seq<nat>, e: Z, n: nat, user: nat, added: set<Z>)
    requires HoldsTop(BoxOf(inbox, user), added, n) && OneScore(added + {e})
    ensures HoldsTop(BoxOf(PushedTo(inbox, fans, e, n), user), if user in fans then added + {e} else added, n)
  {
    hide HoldsTop, AddTrim, OneScore;
    if fans != [] {
      var init := fans[..|fans| - 1];
      assert fans == init + [fans[|fans| - 1]];
      PushKeepsTop(inbox, init, e, n, user, added);
      if fans[|fans| - 1] == user {
        var before := if user in init then added + {e} else added;
        assert before + {e} == added + {e};
        TopWithOneMore(BoxOf(PushedTo(inbox, init, e, n), user), before, e, n);
      }
    }
  }

  /** One event and one inbox: it gains exactly what is delivered, unless its owner unfollows. */
  lemma EventOnInbox(cfg: Config, b: Boxes, ev: Event, user: nat, added: set<Z>)
    requires cfg.Valid() && !(ev.Unfollow? && ev.follower == user)
    requires HoldsTop(BoxOf(b.inbox, user), added, cfg.timelineMax) && OneScore(added + Delivered(cfg, b, ev, user))
    ensures HoldsTop(BoxOf(After(cfg, b, ev).inbox, user), added + Delivered(cfg, b, ev, user), cfg.timelineMax)
  {
    hide HoldsTop, AddTrim, PushedTo, PushRun, Judge, AfterJudging, OneScore, Rem;
    match ev
    case Publish(author, e, pages, sig) =>
      var run := Fanned(cfg, b, author, e, pages, sig).1;
      assert added + {} == added;
      if user in run.fans {
        PushKeepsTop(b.inbox, run.fans, e, cfg.timelineMax, user, added);
      } else {
        PushOnOthers(b.inbox, run.fans, e, cfg.timelineMax, user);
      }
    case Follow(follower, author, sig) => FollowOnInbox(cfg, b, follower, author, sig, user, added);
    case Unfollow(_, _) => assert added + {} == added;
    case Remove(_, _) => assert added + {} == added;
  }

  lemma {:induction false} PushOnOthers(inbox: map<nat, seq<Z>>, fans: seq<nat>, e: Z, n: nat, user: nat)
    requires user !in fans
    ensures BoxOf(PushedTo(inbox, fans, e, n), user) == BoxOf(inbox, user)
  {
    hide AddTrim;
    if fans != [] {
      assert fans == fans[..|fans| - 1] + [fans[|fans| - 1]];
      PushOnOthers(inbox, fans[..|fans| - 1], e, n, user);
    }
  }

  lemma FollowOnInbox(cfg: Config, b: Boxes, follower: nat, author: nat, sig: Signals, user: nat, added: set<Z>)
    requires cfg.Valid() && HoldsTop(BoxOf(b.inbox, user), added, cfg.timelineMax)
    requires OneScore(added + Delivered(cfg, b, Follow(follower, author, sig), user))
    ensures HoldsTop(BoxOf(Backfilled(cfg, b, follower, author, sig).inbox, user),
                     added + Delivered(cfg, b, Follow(follower, author, sig), user), cfg.timelineMax)
  {
    hide HoldsTop, AddTrim, Judge, AfterJudging, OneScore;
    var abox := BoxOf(b.authorBox, author);
    assert added + {} == added;
    assert Elements([]) == {};
    if cfg.backfill == 0 {
      assert Take(0, abox) == [];
    } else {
      var items := Take(cfg.backfill, abox);
      assert RevRange(abox, 0, cfg.backfill - 1) == items by {
        assert abox[0..] == abox;
      }
      if follower == user && Judge(cfg, author in b.celebrities, sig) != Pull && items != [] {
        AddTrimKeepsTop(BoxOf(b.inbox, user), added, items, cfg.timelineMax);
      }
    }
  }

  /**
   In any run the inbox of a user who unfollows nobody holds the newest `timelineMax` of everything
   it was given before and everything pushed or backfilled to that user since.
   */
  lemma {:induction false} InboxKeepsTop(cfg: Config, b: Boxes, evs: seq<Event>, user: nat, added: set<Z>)
    requires cfg.Valid() && HoldsTop(BoxOf(b.inbox, user), added, cfg.timelineMax)
    requires OneScore(added + Received(cfg, b, evs, user)) && forall a :: Unfollow(user, a) !in evs
    ensures HoldsTop(BoxOf(Ran(cfg, b, evs).inbox, user), added + Received(cfg, b, evs, user), cfg.timelineMax)
  {
    hide After, HoldsTop, Delivered, OneScore;
    if |evs| == 0 {
      assert added + {} == added;
    } else {
      var n := |evs| - 1;
      var now, before := Ran(cfg, b, evs[..n]), added + Received(cfg, b, evs[..n], user);
      assert added + Received(cfg, b, evs, user) == before + Delivered(cfg, now, evs[n], user);
      OneScoreWithin(before, added + Received(cfg, b, evs, user));
      InboxKeepsTop(cfg, b, evs[..n], user, added);
      assert evs[n] in evs;
      EventOnInbox(cfg, now, evs[n], user, before);
    }
  }

  lemma TopOfTop(box: seq<Z>, added: set<Z>, n: nat, k: nat)
    requires HoldsTop(box, added, n)
    ensures HoldsTop(Take(k, box), added, Min(k, n))
  {
    hide RedisAbove;
    Ordered.TakeMembers(k, box);
    KeptIsZSet(box, k);
    forall x | x in added && x !in Take(k, box)
      ensures |Take(k, box)| == Min(k, n) && forall y :: y in Take(k, box) ==> RedisAbove(y, x)
    {
      if x in box {
        BelowKept(box, k, x);
      }
    }
  }

  /** What a follow delivers is the newest posts of everything the author published in the run. */
  lemma FollowDeliversTheNewest(cfg: Config, b: Boxes, evs: seq<Event>, follower: nat, author: nat, sig: Signals, added: set<Z>)
    returns (newest: seq<Z>)
    requires cfg.Valid() && HoldsTop(BoxOf(b.authorBox, author), added, cfg.authorBoxMax)
    requires OneScore(added + Published(evs, author)) && forall m :: Remove(author, m) !in evs
    ensures HoldsTop(newest, added + Published(evs, author), Min(cfg.backfill, cfg.authorBoxMax))
    ensures var now := Ran(cfg, b, evs);
            Delivered(cfg, now, Follow(follower, author, sig), follower)
            == if Judge(cfg, author in now.celebrities, sig) == Pull then {} else Elements(newest)
  {
    hide HoldsTop, OneScore, Ran, Judge;
    var now := Ran(cfg, b, evs);
    AuthorBoxKeepsTop(cfg, b, evs, author, added);
    TopOfTop(BoxOf(now.authorBox, author), added + Published(evs, author), cfg.authorBoxMax, cfg.backfill);
    newest := Take(cfg.backfill, BoxOf(now.authorBox, author));
  }

  /** An inbox changes only by a push that reaches its owner, and by the owner's own follows of pushed authors and unfollows. */
  lemma InboxIsOwn(cfg: Config, b: Boxes, ev: Event, user: nat)
    requires cfg.Valid() && BoxOf(After(cfg, b, ev).inbox, user) != BoxOf(b.inbox, user)
    ensures || (ev.Publish? && user in Fanned(cfg, b, ev.author, ev.e, ev.pages, ev.sig).1.fans)
            || (ev.Follow? && ev.follower == user && Judge(cfg, ev.author in b.celebrities, ev.sig) != Pull)
            || (ev.Unfollow? && ev.follower == user)
  {
    hide AddTrim, PushedTo, PushRun, Judge, AfterJudging, RevRange, Rem;
    if ev.Publish? {
      var run := Fanned(cfg, b, ev.author, ev.e, ev.pages, ev.sig).1;
      if user !in run.fans {
        PushOnOthers(b.inbox, run.fans, ev.e, cfg.timelineMax, user);
      }
    }
  }

  /** A removed post is not in its author's box, which keeps everything else. */
  lemma RemovedIsGone(b: Boxes, author: nat, member: string, x: Z)
    ensures x in BoxOf(Withdrawn(b, author, member).authorBox, author)
            <==> x in BoxOf(b.authorBox, author) && x.member != member
  {
    hide Ordered.Filter;
    Ordered.FilterMembers(OtherThan(member), BoxOf(b.authorBox, author));
  }

  // ---- The mode of an author ----

  /** The follower count is known to lie so far below the threshold that a full 4/5 of it is out of reach. */
  predicate ClearlyBelow(cfg: Config, sig: Signals) {
    sig.count.Some? && 5 * (sig.count.value + 1) <= 4 * cfg.threshold
  }

  /** An event that asks for the verdict on an author. */
  predicate Judges(cfg: Config, ev: Event, author: nat) {
    (ev.Publish? && ev.author == author) || (ev.Follow? && ev.author == author && cfg.backfill > 0)
  }

  /** A verdict takes an author off the set exactly when the author is listed and clearly below four fifths of the threshold. */
  lemma DemotedExactlyWhen(cfg: Config, celebrities: set<nat>, author: nat, other: nat, sig: Signals)
    ensures author in celebrities ==>
              (author !in AfterJudging(cfg, celebrities, author, sig)
               <==> ClearlyBelow(cfg, sig) && sig.readOk && sig.demoteOk)
    ensures other != author || author !in celebrities ==>
              (other in AfterJudging(cfg, celebrities, author, sig) <==> other in celebrities)
  {
  }

  /**
   Between four fifths of the threshold and the threshold the verdict is whatever the set says:
   listed authors stay pulled and others stay pushed.
   */
  lemma BandKeepsTheMode(cfg: Config, listed: bool, sig: Signals)
    requires sig.readOk && sig.count.Some? && !ClearlyBelow(cfg, sig) && sig.count.value < cfg.threshold
    ensures Judge(cfg, listed, sig) == if listed then Pull else Push
  {
  }

  /** One event leaves the membership of an author in the set alone, unless it asks for the verdict on that author. */
  lemma EventOnListing(cfg: Config, b: Boxes, ev: Event, author: nat)
    requires cfg.Valid() && author in b.celebrities && author !in After(cfg, b, ev).celebrities
    ensures Judges(cfg, ev, author) && ClearlyBelow(cfg, ev.sig) && ev.sig.readOk && ev.sig.demoteOk
  {
    hide AddTrim, PushedTo, PushRun, Judge, RevRange, Rem;
  }

  /** A listed author stays listed through any run in which no verdict finds the count clearly below. */
  lemma {:induction false} ListedStaysListed(cfg: Config, b: Boxes, evs: seq<Event>, author: nat)
    requires cfg.Valid() && author in b.celebrities
    requires forall ev :: ev in evs && Judges(cfg, ev, author) ==> !ClearlyBelow(cfg, ev.sig)
    ensures author in Ran(cfg, b, evs).celebrities
  {
    hide After, ClearlyBelow, Judges;
    if |evs| > 0 {
      var n := |evs| - 1;
      ListedStaysListed(cfg, b, evs[..n], author);
      assert evs[n] in evs;
      if author !in After(cfg, Ran(cfg, b, evs[..n]), evs[n]).celebrities {
        EventOnListing(cfg, Ran(cfg, b, evs[..n]), evs[n], author);
        assert false;
      }
    }
  }
}

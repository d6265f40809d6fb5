/**
 Hybrid fan-out of a published post: into the author's box always, and into the followers'
 inboxes unless the author is a celebrity, whose box readers pull from instead.
 */
module Fanout {
  import opened Prelude
  import opened Decimal
  import opened Ordered
  import opened SortedSet
  import opened TrimmedBox

  const DEMOTE_RATIO_PERCENT: nat := 80

  datatype Config = Config(threshold: nat, batch: nat, maxFans: nat, timelineMax: nat,
                           authorBoxMax: nat, backfill: nat, maxPull: nat)
  {
    /** The values left after defaults have replaced what was not set. */
    predicate Valid() {
      threshold > 0 && batch > 0 && maxFans > 0 && timelineMax > 0 && authorBoxMax > 0 && maxPull > 0
    }

    /** The number of reached followers at which a push stops. */
    function Limit(): (n: nat)
      requires Valid()
      ensures n > 0
    {
      if threshold < maxFans then threshold else maxFans
    }
  }

  /** One page of a follower or following list. */
  datatype ListPage = ListFailed | Users(ids: seq<nat>, next: string)

  /** A list service may answer every call differently: the call's number and its cursor decide. */
  type Lister = (nat, string) -> ListPage

  /**
   What the celebrity registry learns while it judges: the follower count if one is available,
   and whether its own reads and writes of the set succeed. Their failures are swallowed.
   */
  datatype Signals = Signals(count: Option<int>, readOk: bool, demoteOk: bool, markOk: bool)

  datatype Verdict = Unknown | Push | Pull

  datatype Ending = Broken | Promoted | Exhausted

  datatype Run = Run(fans: seq<nat>, ending: Ending)

  datatype Boxes = Boxes(celebrities: set<nat>, inbox: map<nat, seq<Z>>, authorBox: map<nat, seq<Z>>)

  function BoxOf(boxes: map<nat, seq<Z>>, user: nat): seq<Z> {
    if user in boxes then boxes[user] else []
  }

  // ---- Who is a celebrity ----

  predicate FellBelow(cfg: Config, sig: Signals) {
    sig.count.Some? && sig.count.value < cfg.threshold * DEMOTE_RATIO_PERCENT / 100
  }

  function Judge(cfg: Config, listed: bool, sig: Signals): Verdict {
    if listed && sig.readOk then (if FellBelow(cfg, sig) then Push else Pull)
    else match sig.count
         case None => Unknown
         case Some(count) => if count >= cfg.threshold then Pull else Push
  }

  function AfterJudging(cfg: Config, celebrities: set<nat>, author: nat, sig: Signals): set<nat> {
    if author in celebrities && sig.readOk && FellBelow(cfg, sig) && sig.demoteOk then celebrities - {author}
    else celebrities
  }

  // ---- Pushing ----

  /** The followers a push reaches from one call of the list service on, and how it ends. */
  function PushRun(pages: Lister, call: nat, cursor: string, reached: nat, batch: nat, limit: nat): Run
    requires reached < limit
    decreases limit - reached
  {
    match pages(call, cursor)
    case ListFailed => Run([], Broken)
    case Users(ids, next) =>
      if ids == [] then Run([], Exhausted)
      else if reached + |ids| >= limit then Run(ids, Promoted)
      else if next == "" || next == cursor || |ids| < batch then Run(ids, Exhausted)
      else
        var rest := PushRun(pages, call + 1, next, reached + |ids|, batch, limit);
        Run(ids + rest.fans, rest.ending)
  }

  lemma RunStep(pages: Lister, call: nat, cursor: string, reached: nat, batch: nat, limit: nat)
    requires reached < limit
    ensures var run, page := PushRun(pages, call, cursor, reached, batch, limit), pages(call, cursor);
            if page.ListFailed? then run == Run([], Broken)
            else if page.ids == [] then run == Run([], Exhausted)
            else if reached + |page.ids| >= limit then run == Run(page.ids, Promoted)
            else if page.next == "" || page.next == cursor || |page.ids| < batch then run == Run(page.ids, Exhausted)
            else
              var rest := PushRun(pages, call + 1, page.next, reached + |page.ids|, batch, limit);
              run == Run(page.ids + rest.fans, rest.ending)
  {
  }

  function PushedTo(inbox: map<nat, seq<Z>>, fans: seq<nat>, e: Z, n: nat): map<nat, seq<Z>> {
    if fans == [] then inbox
    else
      var m := PushedTo(inbox, fans[..|fans| - 1], e, n);
      var f := fans[|fans| - 1];
      m[f := AddTrim(BoxOf(m, f), [e], n)]
  }

  function PushOf(cfg: Config, pages: Lister): Run
    requires cfg.Valid()
  {
    PushRun(pages, 0, "", 0, cfg.batch, cfg.Limit())
  }

  /** Everything one published post changes, and the push it causes. */
  function Fanned(cfg: Config, b: Boxes, author: nat, e: Z, pages: Lister, sig: Signals): (Boxes, Run)
    requires cfg.Valid()
  {
    var boxed := b.(authorBox := b.authorBox[author := AddTrim(BoxOf(b.authorBox, author), [e], cfg.authorBoxMax)],
                    celebrities := AfterJudging(cfg, b.celebrities, author, sig));
    if Judge(cfg, author in b.celebrities, sig) == Pull then (boxed, Run([], Exhausted))
    else
      var run := PushOf(cfg, pages);
      (boxed.(inbox := PushedTo(b.inbox, run.fans, e, cfg.timelineMax),
              celebrities := if run.ending == Promoted && sig.markOk then boxed.celebrities + {author} else boxed.celebrities),
       run)
  }

  // ---- Following and unfollowing ----

  function OutOf(box: seq<Z>): Z -> bool {
    (x: Z) => forall y :: y in box ==> y.member != x.member
  }

  function Backfilled(cfg: Config, b: Boxes, follower: nat, author: nat, sig: Signals): Boxes {
    if cfg.backfill == 0 then b
    else
      var items := RevRange(BoxOf(b.authorBox, author), 0, cfg.backfill - 1);
      var judged := b.(celebrities := AfterJudging(cfg, b.celebrities, author, sig));
      if Judge(cfg, author in b.celebrities, sig) == Pull || items == [] then judged
      else judged.(inbox := b.inbox[follower := AddTrim(BoxOf(b.inbox, follower), items, cfg.timelineMax)])
  }

  function Cleaned(b: Boxes, follower: nat, author: nat): Boxes {
    if BoxOf(b.authorBox, author) == [] then b
    else b.(inbox := b.inbox[follower := Filter(OutOf(BoxOf(b.authorBox, author)), BoxOf(b.inbox, follower))])
  }

  /** A removed post leaves its author's box only; what inboxes hold of it stays. */
  function Withdrawn(b: Boxes, author: nat, member: string): Boxes {
    b.(authorBox := b.authorBox[author := Rem(BoxOf(b.authorBox, author), member)])
  }

  // ---- The service ----

  class FanoutService {
    const cfg: Config
    var celebrities: set<nat>
    var inbox: map<nat, seq<Z>>
    var authorBox: map<nat, seq<Z>>

    ghost function State(): Boxes
      reads this
    {
      Boxes(celebrities, inbox, authorBox)
    }

    constructor (cfg: Config)
      requires cfg.Valid()
      ensures this.cfg == cfg && State() == Boxes({}, map[], map[])
    {
      this.cfg := cfg;
      celebrities, inbox, authorBox := {}, map[], map[];
    }

    /** A listed author whose known count fell below 80% of the threshold leaves the set on the spot. */
    method IsCelebrity(author: nat, sig: Signals) returns (celebrity: bool, known: bool)
      modifies this`celebrities
      ensures celebrity <==> Judge(cfg, author in old(celebrities), sig) == Pull
      ensures known <==> Judge(cfg, author in old(celebrities), sig) != Unknown
      ensures celebrities == AfterJudging(cfg, old(celebrities), author, sig)
    {
      if sig.readOk && author in celebrities {
        if sig.count.Some? && sig.count.value < cfg.threshold * DEMOTE_RATIO_PERCENT / 100 {
          if sig.demoteOk {
            celebrities := celebrities - {author};
          }
          return false, true;
        }
        return true, true;
      }
      if sig.count.None? {
        return false, false;
      }
      return sig.count.value >= cfg.threshold, true;
    }

    method PushBatch(fans: seq<nat>, e: Z)
      modifies this`inbox
      ensures inbox == PushedTo(old(inbox), fans, e, cfg.timelineMax)
    {
      hide AddTrim;
      for i := 0 to |fans|
        invariant inbox == PushedTo(old(inbox), fans[..i], e, cfg.timelineMax)
      {
        assert fans[..i + 1][..i] == fans[..i];
        inbox := inbox[fans[i] := AddTrim(BoxOf(inbox, fans[i]), [e], cfg.timelineMax)];
      }
      assert fans[..|fans|] == fans;
    }

    /** Push and count on the way; stop and list the author once enough followers are reached. */
    method PushToFollowers(author: nat, e: Z, pages: Lister, markOk: bool) returns (ending: Ending)
      requires cfg.Valid()
      modifies this`inbox, this`celebrities
      ensures ending == PushOf(cfg, pages).ending
      ensures inbox == PushedTo(old(inbox), PushOf(cfg, pages).fans, e, cfg.timelineMax)
      ensures celebrities == if ending == Promoted && markOk then old(celebrities) + {author} else old(celebrities)
    {
      hide AddTrim, PushedTo, PushRun;
      var cursor, reached, call := "", 0, 0;
      ghost var fans: seq<nat> := [];
      PushedToNobody(inbox, e, cfg.timelineMax);
      while true
        invariant 0 <= reached < cfg.Limit() && celebrities == old(celebrities)
        invariant inbox == PushedTo(old(inbox), fans, e, cfg.timelineMax)
        invariant var rest := PushRun(pages, call, cursor, reached, cfg.batch, cfg.Limit());
                  PushOf(cfg, pages) == Run(fans + rest.fans, rest.ending)
        decreases cfg.Limit() - reached
      {
        var page := pages(call, cursor);
        RunStep(pages, call, cursor, reached, cfg.batch, cfg.Limit());
        if page.ListFailed? {
          assert fans + [] == fans;
          return Broken;
        }
        if page.ids == [] {
          break;
        }
        PushedConcat(old(inbox), fans, page.ids, e, cfg.timelineMax);
        PushBatch(page.ids, e);
        ghost var before := fans;
        fans := fans + page.ids;
        reached := reached + |page.ids|;
        if reached >= cfg.threshold {
          celebrities := if markOk then celebrities + {author} else celebrities;
          return Promoted;
        }
        if reached >= cfg.maxFans {
          celebrities := if markOk then celebrities + {author} else celebrities;
          return Promoted;
        }
        if page.next == "" || page.next == cursor || |page.ids| < cfg.batch {
          assert fans + [] == fans;
          return Exhausted;
        }
        call, cursor := call + 1, page.next;
        ghost var later := PushRun(pages, call, cursor, reached, cfg.batch, cfg.Limit()).fans;
        assert before + (page.ids + later) == fans + later;
      }
      assert fans + [] == fans;
      ending := Exhausted;
    }

    /** The author's box first, then the verdict, then the push. */
    method FanoutPost(author: nat, post: nat, createdAt: int, pages: Lister, sig: Signals) returns (ending: Ending)
      requires cfg.Valid()
      modifies this
      ensures var (after, run) := Fanned(cfg, old(State()), author, Z(createdAt, Format(post)), pages, sig);
              State() == after && ending == run.ending
    {
      hide AddTrim, PushedTo, PushRun, Format;
      var e := Z(createdAt, Format(post));
      authorBox := authorBox[author := AddTrim(BoxOf(authorBox, author), [e], cfg.authorBoxMax)];
      var celebrity, known := IsCelebrity(author, sig);
      if known && celebrity {
        return Exhausted;
      }
      ending := PushToFollowers(author, e, pages, sig.markOk);
    }

    method OnFollow(follower: nat, author: nat, sig: Signals)
      modifies this`inbox, this`celebrities
      ensures State() == Backfilled(cfg, old(State()), follower, author, sig)
    {
      hide AddTrim, RevRange;
      if cfg.backfill == 0 {
        return;
      }
      var celebrity, known := IsCelebrity(author, sig);
      if known && celebrity {
        return;
      }
      var items := RevRange(BoxOf(authorBox, author), 0, cfg.backfill - 1);
      if items != [] {
        inbox := inbox[follower := AddTrim(BoxOf(inbox, follower), items, cfg.timelineMax)];
      }
    }

    method OnUnfollow(follower: nat, author: nat)
      modifies this`inbox
      ensures State() == Cleaned(old(State()), follower, author)
    {
      hide Filter;
      var members := BoxOf(authorBox, author);
      if members != [] {
        inbox := inbox[follower := Filter(OutOf(members), BoxOf(inbox, follower))];
      }
    }

    method RemovePost(author: nat, post: nat)
      modifies this`authorBox
      ensures State() == Withdrawn(old(State()), author, Format(post))
    {
      authorBox := authorBox[author := Rem(BoxOf(authorBox, author), Format(post))];
    }

    /** Appends the listed celebrities of one page until maxPull of them are found. */
    method TakeCelebrities(ids: seq<nat>, found: seq<nat>) returns (celebs: seq<nat>)
      requires |found| < cfg.maxPull
      ensures celebs == Take(cfg.maxPull, found + Filter(In(celebrities), ids))
    {
      hide Filter;
      celebs := found;
      FilterNone(In(celebrities), []);
      assert ids[..0] == [];
      for i := 0 to |ids|
        invariant |celebs| < cfg.maxPull && celebs == found + Filter(In(celebrities), ids[..i])
      {
        assert ids[..i + 1] == ids[..i] + [ids[i]];
        FilterSnoc(In(celebrities), ids[..i], ids[i]);
        if ids[i] in celebrities {
          celebs := celebs + [ids[i]];
          if |celebs| >= cfg.maxPull {
            HeadAndTail(ids, i + 1);
            FilterConcat(In(celebrities), ids[..i + 1], ids[i + 1..]);
            return;
          }
        }
      }
      assert ids[..|ids|] == ids;
    }

    /**
     The followed authors in the celebrity set, at most maxPull of them, found by paging through
     the following list; None when the list service fails. `all` and `at` name the list a faithful
     service pages through and where its cursors stand.
     */
    method FollowedCelebrities(pages: Lister, ghost all: seq<nat>, ghost at: string -> nat)
      returns (celebs: Option<seq<nat>>)
      requires cfg.Valid()
      ensures celebs.Some? ==> |celebs.value| <= cfg.maxPull
      ensures Faithful(pages, all, at, 500) ==>
                celebs == Some(Take(cfg.maxPull, Filter(In(celebrities), Take(20000, all))))
    {
      hide Filter, Faithful;
      ghost var faithful := Faithful(pages, all, at, FOLLOWING_SCAN_PAGE_SIZE);
      var found: seq<nat> := [];
      var cursor := "";
      FilterNone(In(celebrities), []);
      StartsAtZero(pages, all, at, FOLLOWING_SCAN_PAGE_SIZE);
      var page := 0;
      while page < FOLLOWING_SCAN_MAX_PAGES
        invariant 0 <= page <= FOLLOWING_SCAN_MAX_PAGES && |found| < cfg.maxPull
        invariant faithful ==> at(cursor) == page * FOLLOWING_SCAN_PAGE_SIZE <= |all|
                               && found == Filter(In(celebrities), Take(at(cursor), all))
      {
        var batch := pages(page, cursor);
        if batch.ListFailed? {
          PageOfFaithful(pages, all, at, FOLLOWING_SCAN_PAGE_SIZE, page, cursor);
          return None;
        }
        if faithful {
          PageOfFaithful(pages, all, at, FOLLOWING_SCAN_PAGE_SIZE, page, cursor);
          NextPrefix(In(celebrities), all, at(cursor), FOLLOWING_SCAN_PAGE_SIZE);
          PrefixFound(In(celebrities), all, at(cursor) + FOLLOWING_SCAN_PAGE_SIZE, FOLLOWING_SCAN_LIMIT, cfg.maxPull);
        }
        if batch.ids == [] {
          assert found + [] == found;
          return Some(found);
        }
        found := TakeCelebrities(batch.ids, found);
        if |found| >= cfg.maxPull {
          return Some(found);
        }
        if batch.next == "" || batch.next == cursor || |batch.ids| < FOLLOWING_SCAN_PAGE_SIZE {
          return Some(found);
        }
        cursor := batch.next;
        page := page + 1;
      }
      celebs := Some(found);
    }
  }

  const FOLLOWING_SCAN_PAGE_SIZE: nat := 500
  const FOLLOWING_SCAN_MAX_PAGES: nat := 40
  const FOLLOWING_SCAN_LIMIT: nat := 20000

  function In(users: set<nat>): nat -> bool {
    (u: nat) => u in users
  }

  /**
   A list service that pages through `all`: a cursor stands at a position, and each page holds
   the next `batch` users from there and a cursor that stands behind them.
   */
  ghost predicate Faithful(pages: Lister, all: seq<nat>, at: string -> nat, batch: nat) {
    && at("") == 0
    && forall call, cursor :: at(cursor) <= |all| ==>
         && pages(call, cursor).Users?
         && pages(call, cursor).ids == Take(batch, all[at(cursor)..])
         && (at(cursor) + batch <= |all| ==>
               || (pages(call, cursor).next == "" && at(cursor) + batch == |all|)
               || at(pages(call, cursor).next) == at(cursor) + batch)
  }

  lemma StartsAtZero(pages: Lister, all: seq<nat>, at: string -> nat, batch: nat)
    ensures Faithful(pages, all, at, batch) ==> at("") == 0
  {
  }

  lemma PageOfFaithful(pages: Lister, all: seq<nat>, at: string -> nat, batch: nat, call: nat, cursor: string)
    requires batch > 0
    ensures Faithful(pages, all, at, batch) && at(cursor) <= |all| ==>
              var page := pages(call, cursor);
              && page.Users? && page.ids == Take(batch, all[at(cursor)..])
              && (at(cursor) + batch <= |all| && page.next != "" ==> at(page.next) == at(cursor) + batch)
              && (page.next == "" ==> |all| <= at(cursor) + batch)
  {
  }

  lemma NextPrefix(p: nat -> bool, all: seq<nat>, k: nat, batch: nat)
    requires k <= |all|
    ensures Filter(p, Take(k + batch, all)) == Filter(p, Take(k, all)) + Filter(p, Take(batch, all[k..]))
  {
    assert Take(k + batch, all) == Take(k, all) + Take(batch, all[k..]);
    FilterConcat(p, Take(k, all), Take(batch, all[k..]));
  }

  /** Enough found in a prefix is enough found in all of it. */
  lemma PrefixFound(p: nat -> bool, all: seq<nat>, k: nat, limit: nat, max: nat)
    requires k <= limit
    ensures |Filter(p, Take(k, all))| >= max || |all| <= k || k == limit ==>
              Take(max, Filter(p, Take(k, all))) == Take(max, Filter(p, Take(limit, all)))
  {
    hide Filter;
    var whole := Take(limit, all);
    var m := Min(k, |whole|);
    assert Take(k, all) == whole[..m];
    HeadAndTail(whole, m);
    FilterConcat(p, whole[..m], whole[m..]);
    if |all| <= k || k == limit {
      assert whole[..m] == whole;
    }
  }

  // ---- Pushing, at the level of boxes ----

  lemma PushedToNobody(inbox: map<nat, seq<Z>>, e: Z, n: nat)
    ensures PushedTo(inbox, [], e, n) == inbox
  {
  }

  lemma {:induction false} PushedConcat(inbox: map<nat, seq<Z>>, a: seq<nat>, b: seq<nat>, e: Z, n: nat)
    ensures PushedTo(inbox, a + b, e, n) == PushedTo(PushedTo(inbox, a, e, n), b, e, n)
  {
    hide AddTrim;
    if b == [] {
      assert a + b == a;
    } else {
      var last := |b| - 1;
      PushedConcat(inbox, a, b[..last], e, n);
      assert (a + b)[..|a + b| - 1] == a + b[..last];
    }
  }

  /** Adding the same post to a box once more changes nothing. */
  lemma AddAgain(box: seq<Z>, e: Z, n: nat)
    requires IsZSet(box)
    ensures IsZSet(AddTrim(box, [e], n))
    ensures AddTrim(AddTrim(box, [e], n), [e], n) == AddTrim(box, [e], n)
  {
    hide RedisAbove, AddTrim, HoldsTop, Add;
    AddKeepsZSet(box, e);
    var c := Add(box, e);
    OneAdd(box, e, n);
    EntryAdded(box, e);
    TrimHoldsTop(c, n);
    var once := TrimTo(c, n);
    KeptIsZSet(c, n);
    assert Elements(c) + Elements([e]) == Elements(c);
    AddTrimKeepsTop(once, Elements(c), [e], n);
    TopIsUnique(AddTrim(once, [e], n), once, Elements(c), n);
  }

  lemma EntryAdded(box: seq<Z>, e: Z)
    ensures e in Add(box, e)
  {
    InsertMembers(RedisAbove, e, Rem(box, e.member));
  }

  lemma TrimHoldsTop(c: seq<Z>, n: nat)
    requires IsZSet(c)
    ensures HoldsTop(TrimTo(c, n), Elements(c), n) && OneScore(Elements(c))
  {
    hide RedisAbove;
    KeptIsZSet(c, n);
    TakeMembers(n, c);
    forall x | x in c && x !in TrimTo(c, n)
      ensures |TrimTo(c, n)| == n && forall y :: y in TrimTo(c, n) ==> RedisAbove(y, x)
    {
      BelowKept(c, n, x);
    }
    forall x, y | x in Elements(c) && y in Elements(c) && x.member == y.member ensures x == y {
      if x != y {
        MembersUnique(c, x, y);
      }
    }
  }

  ghost predicate AllZSets(inbox: map<nat, seq<Z>>) {
    forall u :: u in inbox ==> IsZSet(inbox[u])
  }

  /** Each inbox reached gets the post once, however often its owner is listed; no other changes. */
  lemma {:induction false} PushedOnce(inbox: map<nat, seq<Z>>, fans: seq<nat>, e: Z, n: nat, u: nat)
    requires AllZSets(inbox)
    ensures BoxOf(PushedTo(inbox, fans, e, n), u)
            == if u in fans then AddTrim(BoxOf(inbox, u), [e], n) else BoxOf(inbox, u)
  {
    hide AddTrim, RedisAbove;
    if fans != [] {
      var init := fans[..|fans| - 1];
      assert fans == init + [fans[|fans| - 1]];
      PushedOnce(inbox, init, e, n, u);
      AddAgain(BoxOf(inbox, u), e, n);
    }
  }

  /** A redelivered post leaves every inbox it reached as it was. */
  lemma RedeliveryChangesNoInbox(inbox: map<nat, seq<Z>>, fans: seq<nat>, e: Z, n: nat, u: nat)
    requires AllZSets(inbox)
    ensures BoxOf(PushedTo(PushedTo(inbox, fans, e, n), fans, e, n), u) == BoxOf(PushedTo(inbox, fans, e, n), u)
  {
    hide PushedTo, AddTrim;
    PushedConcat(inbox, fans, fans, e, n);
    PushedOnce(inbox, fans, e, n, u);
    PushedOnce(inbox, fans + fans, e, n, u);
  }

  // ---- Bounds and delivery ----

  /** However the list service answers, a push stops within one page of the limit. */
  lemma {:induction false} PushIsBounded(pages: Lister, call: nat, cursor: string, reached: nat, batch: nat, limit: nat)
    requires reached < limit
    requires forall i, c :: pages(i, c).Users? ==> |pages(i, c).ids| <= batch
    ensures reached + |PushRun(pages, call, cursor, reached, batch, limit).fans| <= limit - 1 + batch
    ensures PushRun(pages, call, cursor, reached, batch, limit).ending == Promoted
            <==> reached + |PushRun(pages, call, cursor, reached, batch, limit).fans| >= limit
    decreases limit - reached
  {
    match pages(call, cursor)
    case ListFailed =>
    case Users(ids, next) =>
      if ids != [] && reached + |ids| < limit && next != "" && next != cursor && |ids| >= batch {
        PushIsBounded(pages, call + 1, next, reached + |ids|, batch, limit);
      }
  }

  /** The smaller of the two bounds stops a push: it lists the author exactly when that many were reached. */
  lemma PushStopsAtTheSmallerBound(cfg: Config, pages: Lister)
    requires cfg.Valid() && forall i, c :: pages(i, c).Users? ==> |pages(i, c).ids| <= cfg.batch
    ensures var run := PushOf(cfg, pages);
            && |run.fans| < cfg.threshold + cfg.batch && |run.fans| < cfg.maxFans + cfg.batch
            && (run.ending == Promoted <==> |run.fans| >= cfg.threshold || |run.fans| >= cfg.maxFans)
  {
    hide PushRun;
    PushIsBounded(pages, 0, "", 0, cfg.batch, cfg.Limit());
  }

  /** Full pages needed to reach a number of users, in users. */
  function RoundUp(n: int, batch: nat): (r: nat)
    requires batch > 0
    ensures n <= r
  {
    if n <= 0 then 0 else batch + RoundUp(n - batch, batch)
  }

  /** A faithful list service makes a push reach a prefix of the followers, cut after the page that crosses the limit. */
  lemma {:induction false} FaithfulRun(pages: Lister, all: seq<nat>, at: string -> nat, call: nat, cursor: string,
                                       batch: nat, limit: nat)
    requires batch > 0 && Faithful(pages, all, at, batch) && at(cursor) < limit && at(cursor) <= |all|
    ensures PushRun(pages, call, cursor, at(cursor), batch, limit)
            == Run(all[at(cursor)..Min(|all|, at(cursor) + RoundUp(limit - at(cursor), batch))],
                   if |all| >= limit then Promoted else Exhausted)
    decreases limit - at(cursor)
  {
    hide PushRun, Faithful;
    var k := at(cursor);
    PageOfFaithful(pages, all, at, batch, call, cursor);
    RunStep(pages, call, cursor, k, batch, limit);
    var Users(ids, next) := pages(call, cursor);
    StartsAtZero(pages, all, at, batch);
    if k + batch <= |all| && k + batch < limit && next != "" {
      FaithfulRun(pages, all, at, call + 1, next, batch, limit);
      var stop := Min(|all|, k + RoundUp(limit - k, batch));
      assert all[k..stop] == ids + all[k + batch..stop];
    } else {
      assert all[k..Min(|all|, k + RoundUp(limit - k, batch))] == ids;
    }
  }

  /** The post is in a box bounded by n, unless the box is full of newer ones. */
  predicate Shows(box: seq<Z>, e: Z, n: nat) {
    e in box || (|box| == n && forall y :: y in box ==> RedisAbove(y, e))
  }

  lemma AddedShows(box: seq<Z>, e: Z, n: nat)
    requires IsZSet(box)
    ensures Shows(AddTrim(box, [e], n), e, n)
  {
    hide RedisAbove, Add;
    AddKeepsZSet(box, e);
    OneAdd(box, e, n);
    EntryAdded(box, e);
    if e !in TrimTo(Add(box, e), n) {
      BelowKept(Add(box, e), n, e);
    }
  }

  /** A follower can read the post: from the inbox, or from the box of an author in the set that readers consult. */
  predicate CanRead(cfg: Config, b: Boxes, author: nat, follower: nat, e: Z) {
    || Shows(BoxOf(b.inbox, follower), e, cfg.timelineMax)
    || (author in b.celebrities && Shows(BoxOf(b.authorBox, author), e, cfg.authorBoxMax))
  }

  ghost predicate ZSets(b: Boxes) {
    AllZSets(b.inbox) && AllZSets(b.authorBox)
  }

  /** One published post: who gets it into the inbox, and that the author's box always shows it. */
  lemma ShownExactlyWhen(cfg: Config, b: Boxes, author: nat, e: Z, pages: Lister, sig: Signals, f: nat)
    requires cfg.Valid() && ZSets(b)
    ensures var (after, run) := Fanned(cfg, b, author, e, pages, sig);
            && Shows(BoxOf(after.authorBox, author), e, cfg.authorBoxMax)
            && (Shows(BoxOf(after.inbox, f), e, cfg.timelineMax)
                <==> f in run.fans || Shows(BoxOf(b.inbox, f), e, cfg.timelineMax))
  {
    hide AddTrim, PushedTo, PushRun, RedisAbove, Judge, AfterJudging, Shows, IsZSet;
    var (after, run) := Fanned(cfg, b, author, e, pages, sig);
    EmptyIsZSet();
    AddedShows(BoxOf(b.authorBox, author), e, cfg.authorBoxMax);
    AddedShows(BoxOf(b.inbox, f), e, cfg.timelineMax);
    PushedOnce(b.inbox, run.fans, e, cfg.timelineMax, f);
    PushedToNobody(b.inbox, e, cfg.timelineMax);
  }

  lemma EmptyIsZSet()
    ensures IsZSet([])
  {
  }

  /**
   Exactly when every follower can read a published post, by what boxes and set hold afterwards:
   when all had it before, or the author is in the set, or no count ruled out the push and, if the
   push stopped early and the author could not be listed, those it did not reach had it before.
   */
  lemma ReadableExactlyWhen(cfg: Config, b: Boxes, author: nat, e: Z, pages: Lister, sig: Signals,
                            followers: seq<nat>, at: string -> nat)
    requires cfg.Valid() && ZSets(b) && Faithful(pages, followers, at, cfg.batch) && Distinct(followers)
    ensures var after := Fanned(cfg, b, author, e, pages, sig).0;
            (forall f :: f in followers ==> CanRead(cfg, after, author, f, e)) <==>
            || author in AfterJudging(cfg, b.celebrities, author, sig)
            || (forall f :: f in followers ==> Shows(BoxOf(b.inbox, f), e, cfg.timelineMax))
            || ((sig.count.None? || sig.count.value < cfg.threshold)
                && (sig.markOk
                    || forall i :: RoundUp(cfg.Limit(), cfg.batch) <= i < |followers| ==>
                         Shows(BoxOf(b.inbox, followers[i]), e, cfg.timelineMax)))
  {
    hide AddTrim, PushedTo, PushRun, RedisAbove, Shows, Fanned, Judge, AfterJudging, ZSets, Faithful;
    var (after, run) := Fanned(cfg, b, author, e, pages, sig);
    forall f ensures && Shows(BoxOf(after.authorBox, author), e, cfg.authorBoxMax)
                     && (Shows(BoxOf(after.inbox, f), e, cfg.timelineMax)
                         <==> f in run.fans || Shows(BoxOf(b.inbox, f), e, cfg.timelineMax))
    {
      ShownExactlyWhen(cfg, b, author, e, pages, sig, f);
    }
    ReachedExactlyWhen(cfg, b, author, e, pages, sig, followers, at);
    ReadersOf(cfg, b, after, author, e, followers, run.fans, RoundUp(cfg.Limit(), cfg.batch));
  }

  /** Whom a published post is pushed to, and whether its author is in the set afterwards. */
  lemma ReachedExactlyWhen(cfg: Config, b: Boxes, author: nat, e: Z, pages: Lister, sig: Signals,
                           followers: seq<nat>, at: string -> nat)
    requires cfg.Valid() && Faithful(pages, followers, at, cfg.batch)
    ensures var (after, run) := Fanned(cfg, b, author, e, pages, sig);
            var listed := author in AfterJudging(cfg, b.celebrities, author, sig);
            && (author in after.celebrities <==>
                  listed || (run.fans != [] && |followers| >= cfg.Limit() && sig.markOk))
            && (!listed ==> run.fans == if sig.count.None? || sig.count.value < cfg.threshold
                                        then Take(RoundUp(cfg.Limit(), cfg.batch), followers) else [])
  {
    hide AddTrim, PushedTo, PushRun, Faithful;
    StartsAtZero(pages, followers, at, cfg.batch);
    FaithfulRun(pages, followers, at, 0, "", cfg.batch, cfg.Limit());
    PageOfFaithful(pages, followers, at, cfg.batch, 0, "");
    var stop := Min(|followers|, RoundUp(cfg.Limit(), cfg.batch));
    assert followers[0..stop] == Take(RoundUp(cfg.Limit(), cfg.batch), followers);
  }

  lemma ReadersOf(cfg: Config, b: Boxes, after: Boxes, author: nat, e: Z, followers: seq<nat>, fans: seq<nat>, reach: nat)
    requires Distinct(followers)
    requires forall f :: && Shows(BoxOf(after.authorBox, author), e, cfg.authorBoxMax)
                         && (Shows(BoxOf(after.inbox, f), e, cfg.timelineMax)
                             <==> f in fans || Shows(BoxOf(b.inbox, f), e, cfg.timelineMax))
    ensures author in after.celebrities ==> forall f :: f in followers ==> CanRead(cfg, after, author, f, e)
    ensures author !in after.celebrities && fans == [] ==>
              ((forall f :: f in followers ==> CanRead(cfg, after, author, f, e))
               <==> forall f :: f in followers ==> Shows(BoxOf(b.inbox, f), e, cfg.timelineMax))
    ensures author !in after.celebrities && fans == Take(reach, followers) ==>
              ((forall f :: f in followers ==> CanRead(cfg, after, author, f, e))
               <==> forall i :: reach <= i < |followers| ==> Shows(BoxOf(b.inbox, followers[i]), e, cfg.timelineMax))
  {
    hide Shows;
    if author !in after.celebrities && fans == Take(reach, followers) {
      forall i | 0 <= i < |followers| ensures followers[i] in fans <==> i < reach {
        TakeMembers(reach, followers);
        if followers[i] in fans {
          var k :| 0 <= k < |followers| && k < reach && followers[k] == followers[i];
        }
      }
      if forall f :: f in followers ==> CanRead(cfg, after, author, f, e) {
        forall i | reach <= i < |followers| ensures Shows(BoxOf(b.inbox, followers[i]), e, cfg.timelineMax) {
          assert followers[i] in followers;
        }
      }
    }
  }

  /**
   A verdict from a count at the threshold, for an author outside the set: no follower who did not
   have the post before can read it.
   */
  lemma CountVerdictReachesNobody(cfg: Config, b: Boxes, author: nat, e: Z, pages: Lister, sig: Signals, follower: nat)
    requires cfg.Valid() && ZSets(b) && author !in b.celebrities && sig.count.Some? && sig.count.value >= cfg.threshold
    ensures CanRead(cfg, Fanned(cfg, b, author, e, pages, sig).0, author, follower, e)
            <==> Shows(BoxOf(b.inbox, follower), e, cfg.timelineMax)
  {
    hide AddTrim, PushedTo, PushRun, RedisAbove, Shows;
    ShownExactlyWhen(cfg, b, author, e, pages, sig, follower);
  }

  /** A followed author of the set is among the pulled ones exactly when the two bounds of the scan leave room. */
  lemma PulledExactlyWhen(celebrities: set<nat>, all: seq<nat>, author: nat, i: nat, maxPull: nat)
    requires i < |all| && all[i] == author && author in celebrities && Distinct(all)
    ensures author in Take(maxPull, Filter(In(celebrities), Take(20000, all)))
            <==> i < 20000 && |Filter(In(celebrities), all[..i])| < maxPull
  {
    hide Filter;
    var scanned := Take(FOLLOWING_SCAN_LIMIT, all);
    var head := Filter(In(celebrities), all[..i]);
    FilterMembers(In(celebrities), all[..i]);
    FilterMembers(In(celebrities), scanned);
    TakeMembers(FOLLOWING_SCAN_LIMIT, all);
    if i < FOLLOWING_SCAN_LIMIT {
      var rest := scanned[i + 1..];
      assert scanned == all[..i] + [author] + rest;
      FilterConcat(In(celebrities), all[..i] + [author], rest);
      FilterSnoc(In(celebrities), all[..i], author);
      var found := Filter(In(celebrities), rest);
      FilterMembers(In(celebrities), rest);
      assert author !in rest && author !in head;
      PlaceOf(head, author, found, maxPull);
    } else {
      assert author !in scanned;
      TakeMembers(maxPull, Filter(In(celebrities), scanned));
    }
  }

  lemma PlaceOf(head: seq<nat>, x: nat, tail: seq<nat>, n: nat)
    requires x !in head && x !in tail
    ensures x in Take(n, head + [x] + tail) <==> |head| < n
  {
    var all := head + [x] + tail;
    TakeMembers(n, all);
    assert all[|head|] == x;
  }

  // ---- Follow hooks ----

  /** After a follow in push mode the inbox is the one of somebody who had got those posts pushed. */
  lemma BackfillCatchesUp(cfg: Config, b: Boxes, follower: nat, author: nat, sig: Signals, added: set<Z>, box: seq<Z>)
    requires cfg.backfill > 0 && Judge(cfg, author in b.celebrities, sig) != Pull
    requires var newest := Elements(Take(cfg.backfill, BoxOf(b.authorBox, author)));
             && OneScore(added + newest) && HoldsTop(BoxOf(b.inbox, follower), added, cfg.timelineMax)
             && HoldsTop(box, added + newest, cfg.timelineMax)
    ensures BoxOf(Backfilled(cfg, b, follower, author, sig).inbox, follower) == box
  {
    hide AddTrim, HoldsTop, AfterJudging;
    var abox := BoxOf(b.authorBox, author);
    var items := Take(cfg.backfill, abox);
    assert RevRange(abox, 0, cfg.backfill - 1) == items by {
      assert abox[0..] == abox;
    }
    var mine := BoxOf(b.inbox, follower);
    if items == [] {
      assert added + Elements(items) == added;
      TopIsUnique(mine, box, added, cfg.timelineMax);
    } else {
      AddTrimKeepsTop(mine, added, items, cfg.timelineMax);
      TopIsUnique(AddTrim(mine, items, cfg.timelineMax), box, added + Elements(items), cfg.timelineMax);
    }
  }

  /** Following and unfollowing again leaves the inbox as it was, if the backfill fits in. */
  lemma FollowThenUnfollow(cfg: Config, b: Boxes, follower: nat, author: nat, sig: Signals)
    requires IsZSet(BoxOf(b.inbox, follower)) && IsZSet(BoxOf(b.authorBox, author))
    requires forall x, y :: x in BoxOf(b.inbox, follower) && y in BoxOf(b.authorBox, author) ==> x.member != y.member
    requires |BoxOf(b.inbox, follower)| + cfg.backfill <= cfg.timelineMax
    ensures BoxOf(Cleaned(Backfilled(cfg, b, follower, author, sig), follower, author).inbox, follower)
            == BoxOf(b.inbox, follower)
  {
    hide AddTrim, IsZSet, Filter, RevRange, AfterJudging;
    var mine, abox := BoxOf(b.inbox, follower), BoxOf(b.authorBox, author);
    FilterAll(OutOf(abox), mine);
    if cfg.backfill > 0 {
      var items := RevRange(abox, 0, cfg.backfill - 1);
      TakesFromBox(abox, cfg.backfill);
      CleansBackfill(mine, items, abox, cfg.timelineMax);
    }
  }

  lemma TakesFromBox(abox: seq<Z>, n: nat)
    requires n > 0
    ensures |RevRange(abox, 0, n - 1)| <= n && (abox == [] ==> RevRange(abox, 0, n - 1) == [])
    ensures forall x :: x in RevRange(abox, 0, n - 1) ==> x in abox
  {
  }

  lemma CleansBackfill(mine: seq<Z>, items: seq<Z>, abox: seq<Z>, n: nat)
    requires IsZSet(mine) && IsZSet(abox) && |mine| + |items| <= n
    requires forall x :: x in items ==> x in abox
    requires forall x, y :: x in mine && y in abox ==> x.member != y.member
    ensures Filter(OutOf(abox), AddTrim(mine, items, n)) == mine
  {
    hide AddEach, RedisAbove, Filter;
    forall x, y | x in Elements(mine) + Elements(items) && y in Elements(mine) + Elements(items) && x.member == y.member
      ensures x == y
    {
      if x != y && x in mine && y in mine {
        MembersUnique(mine, x, y);
      }
      if x != y && x in abox && y in abox {
        MembersUnique(abox, x, y);
      }
    }
    AddEachMembers(mine, items);
    var c := AddEach(mine, items);
    DistinctBox(c);
    DistinctFit(c, mine + items);
    FilterMembers(OutOf(abox), c);
    RedisOrderIsTotal();
    FilterSorted(RedisAbove, OutOf(abox), c);
    assert TrimTo(c, n) == c;
    forall x ensures x in Filter(OutOf(abox), c) <==> x in mine {
    }
    SortedUnique(RedisAbove, Filter(OutOf(abox), c), mine);
  }

  /** Unfollowing removes exactly the posts the author's box still lists. */
  lemma UnfollowRemovesTheListed(b: Boxes, follower: nat, author: nat, x: Z)
    ensures x in BoxOf(Cleaned(b, follower, author).inbox, follower)
            <==> x in BoxOf(b.inbox, follower) && forall y :: y in BoxOf(b.authorBox, author) ==> y.member != x.member
  {
    hide Filter;
    FilterMembers(OutOf(BoxOf(b.authorBox, author)), BoxOf(b.inbox, follower));
  }
}

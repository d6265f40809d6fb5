/** Names of counted entities and of the Redis keys that belong to them. */
module CounterKeys {
  import opened Prelude
  import opened Decimal

  function DirtyMember(entityType: string, entityID: string): string {
    entityType + ":" + entityID
  }

  /** Splits a member at its first colon; both parts must be non-empty. */
  function ParseDirtyMember(member: string): Option<(string, string)> {
    match Cut(member, ':')
    case None => None
    case Some(parts) => if parts.0 == "" || parts.1 == "" then None else Some(parts)
  }

  function SdsKey(entityType: string, entityID: string): string {
    "cnt:" + entityType + ":" + entityID
  }

  function RebuildMarkerKey(entityType: string, entityID: string): string {
    "rebuilding:" + entityType + ":" + entityID
  }

  lemma {:induction false} CutJoins(s: string, sep: char)
    ensures Cut(s, sep).Some? ==> Cut(s, sep).value.0 + [sep] + Cut(s, sep).value.1 == s && sep !in Cut(s, sep).value.0
    ensures Cut(s, sep).None? <==> sep !in s
  {
    if s != "" {
      CutJoins(s[1..], sep);
      assert s == [s[0]] + s[1..];
    }
  }

  /** Parsing undoes joining up to the place of the first colon, so the keys of both agree. */
  lemma ParsedMemberJoins(member: string)
    requires ParseDirtyMember(member).Some?
    ensures var parts := ParseDirtyMember(member).value;
            && DirtyMember(parts.0, parts.1) == member && ':' !in parts.0
            && SdsKey(parts.0, parts.1) == "cnt:" + member
            && RebuildMarkerKey(parts.0, parts.1) == "rebuilding:" + member
  {
    CutJoins(member, ':');
    var parts := ParseDirtyMember(member).value;
    assert "cnt:" + parts.0 + ":" + parts.1 == "cnt:" + (parts.0 + ":" + parts.1);
    assert "rebuilding:" + parts.0 + ":" + parts.1 == "rebuilding:" + (parts.0 + ":" + parts.1);
  }

  lemma KeyOfMember(entityType: string, entityID: string)
    ensures SdsKey(entityType, entityID) == "cnt:" + DirtyMember(entityType, entityID)
    ensures RebuildMarkerKey(entityType, entityID) == "rebuilding:" + DirtyMember(entityType, entityID)
  {
  }

  /** A member is read back exactly when its type does not begin with a colon. */
  lemma MemberParsesIff(entityType: string, entityID: string)
    requires entityType != "" && entityID != ""
    ensures ParseDirtyMember(DirtyMember(entityType, entityID)).Some? <==> entityType[0] != ':'
  {
    if entityType[0] != ':' {
      CutOfJoin(entityType, entityID);
    } else {
      assert DirtyMember(entityType, entityID)[0] == ':';
    }
  }

  /** The first colon of a joined member lies inside the type or right behind it. */
  lemma {:induction false} CutOfJoin(entityType: string, entityID: string)
    requires entityType != "" ==> entityType[0] != ':'
    requires entityType != "" && entityID != ""
    ensures var c := Cut(DirtyMember(entityType, entityID), ':'); c.Some? && c.value.0 != "" && c.value.1 != ""
  {
    var m, rest := DirtyMember(entityType, entityID), entityType[1..];
    assert m[1..] == rest + ":" + entityID;
    if rest == "" {
      assert m[1..][1..] == entityID;
    } else if rest[0] == ':' {
      assert m[1..][1..] == rest[1..] + ":" + entityID;
    } else {
      assert m[1..] == DirtyMember(rest, entityID);
      CutOfJoin(rest, entityID);
    }
  }
}

/** Resource references, `urn:<service>:<type>:<resource-id>`. */
module Refs {
  import opened Calls

  const PREFIX := "urn"
  const MAX_NAME_LENGTH := 32
  const MAX_ID_LENGTH := 128

  datatype Ref = Ref(service: string, resourceType: string, id: string) {

    predicate Valid() {
      ValidName(service) && ValidName(resourceType) && ValidID(id)
    }

    function ToString(): string {
      PREFIX + ":" + service + ":" + resourceType + ":" + id
    }
  }

  /** A service or type segment: a lowercase letter, then letters, digits and hyphens. */
  predicate ValidName(value: string) {
    && 0 < |value| <= MAX_NAME_LENGTH
    && forall i :: 0 <= i < |value| ==>
         || 'a' <= value[i] <= 'z'
         || (i > 0 && ('0' <= value[i] <= '9' || value[i] == '-'))
  }

  /** The unreserved characters of section 2.3 of RFC 3986. */
  predicate IDChar(c: char) {
    'a' <= c <= 'z' || 'A' <= c <= 'Z' || '0' <= c <= '9' || c in {'-', '.', '_', '~'}
  }

  predicate ValidID(value: string) {
    && 0 < |value| <= MAX_ID_LENGTH
    && forall i :: 0 <= i < |value| ==> IDChar(value[i])
  }

  /** The colon-separated segments of a string; there is always at least one. */
  function Segments(s: string): (segments: seq<string>)
    ensures |segments| >= 1
  {
    if s == "" then [""]
    else
      var rest := Segments(s[1..]);
      if s[0] == ':' then [""] + rest else [[s[0]] + rest[0]] + rest[1..]
  }

  function Join(segments: seq<string>): string
    requires |segments| >= 1
  {
    if |segments| == 1 then segments[0] else segments[0] + ":" + Join(segments[1..])
  }

  function Parse(s: string): Option<Ref> {
    var segments := Segments(s);
    if |segments| != 4 || segments[0] != PREFIX then None
    else
      var r := Ref(segments[1], segments[2], segments[3]);
      if r.Valid() then Some(r) else None
  }

  predicate IsRef(s: string) {
    Parse(s).Some?
  }

  lemma JoinOne(head: string, rest: seq<string>)
    requires |rest| >= 1
    ensures Join([head] + rest) == head + ":" + Join(rest)
  {
  }

  lemma JoinPrepend(c: char, first: string, rest: seq<string>)
    ensures Join([[c] + first] + rest) == [c] + Join([first] + rest)
  {
  }

  lemma {:induction false} JoinSegments(s: string)
    ensures Join(Segments(s)) == s
  {
    if s != "" {
      JoinSegments(s[1..]);
      HeadAndTail(s);
      if s[0] == ':' {
        JoinOne("", Segments(s[1..]));
      } else {
        var rest := Segments(s[1..]);
        JoinPrepend(s[0], rest[0], rest[1..]);
        assert rest == [rest[0]] + rest[1..];
      }
    }
  }

  lemma HeadAndTail(s: string)
    requires s != ""
    ensures s == [s[0]] + s[1..] && (s[0] == ':' ==> s == "" + ":" + s[1..])
  {
  }

  lemma {:induction false} SegmentsColonFree(s: string)
    requires ':' !in s
    ensures Segments(s) == [s]
  {
    if s != "" {
      assert s[0] in s && s == [s[0]] + s[1..];
      SegmentsColonFree(s[1..]);
    }
  }

  lemma {:induction false} SegmentsPrepend(head: string, rest: string)
    requires ':' !in head
    ensures Segments(head + ":" + rest) == [head] + Segments(rest)
  {
    var s := head + ":" + rest;
    if head == "" {
      assert s[1..] == rest;
    } else {
      SegmentsPrepend(head[1..], rest);
      assert s[1..] == head[1..] + ":" + rest && s[0] == head[0];
      assert head[0] in head && head == [head[0]] + head[1..];
    }
  }

  lemma SegmentsOfFour(a: string, b: string, c: string, d: string)
    requires ':' !in a && ':' !in b && ':' !in c && ':' !in d
    ensures Segments(a + ":" + b + ":" + c + ":" + d) == [a, b, c, d]
  {
    SegmentsColonFree(d);
    SegmentsPrepend(c, d);
    SegmentsPrepend(b, c + ":" + d);
    SegmentsPrepend(a, b + ":" + (c + ":" + d));
    FourParts(a, b, c, d, ":");
  }

  lemma FourParts(a: string, b: string, c: string, d: string, colon: string)
    ensures a + colon + b + colon + c + colon + d == a + colon + (b + colon + (c + colon + d))
  {
  }

  lemma ValidPartsAreColonFree(r: Ref)
    requires r.Valid()
    ensures ':' !in r.service && ':' !in r.resourceType && ':' !in r.id
  {
  }

  /** Printing a valid reference and parsing it gives the reference back. */
  lemma ParseToString(r: Ref)
    requires r.Valid()
    ensures Parse(r.ToString()) == Some(r)
  {
    ValidPartsAreColonFree(r);
    SegmentsOfFour(PREFIX, r.service, r.resourceType, r.id);
  }

  /** A string that parses is the printed form of what it parses to. */
  lemma ToStringParse(s: string)
    requires IsRef(s)
    ensures Parse(s).value.Valid() && Parse(s).value.ToString() == s
  {
    var segments := Segments(s);
    JoinSegments(s);
    assert segments[1..][1..][1..] == [segments[3]];
    assert Join(segments[1..][1..]) == segments[2] + ":" + segments[3];
    assert Join(segments[1..]) == segments[1] + ":" + (segments[2] + ":" + segments[3]);
    assert s == PREFIX + ":" + (segments[1] + ":" + (segments[2] + ":" + segments[3]));
  }

  /** No wildcard fits inside a reference, so a stored reference is never a pattern. */
  lemma RefHasNoWildcard(s: string)
    requires IsRef(s)
    ensures '*' !in s
  {
    ToStringParse(s);
    var r := Parse(s).value;
    assert forall i :: 0 <= i < |r.id| ==> IDChar(r.id[i]);
    assert '*' !in r.id && '*' !in r.service && '*' !in r.resourceType;
    assert '*' !in PREFIX && '*' !in ":";
  }

  /** The reference of an account of the identity service, and of a post. */
  function UserRef(id: string): string { Ref("auth", "user", id).ToString() }
  function PostRef(id: string): string { Ref("content", "post", id).ToString() }

  /** Distinct ids have distinct references, and no user reference is a post reference. */
  lemma RefsDiffer(a: string, b: string)
    ensures UserRef(a) == UserRef(b) ==> a == b
    ensures PostRef(a) == PostRef(b) ==> a == b
    ensures UserRef(a) != PostRef(b)
  {
    assert UserRef(a)[14..] == a && UserRef(b)[14..] == b;
    assert PostRef(a)[17..] == a && PostRef(b)[17..] == b;
    assert UserRef(a)[4] == 'a' && PostRef(b)[4] == 'c';
  }

  lemma MintedRefs(id: string)
    requires ValidID(id)
    ensures IsRef(UserRef(id)) && IsRef(PostRef(id))
  {
    ParseToString(Ref("auth", "user", id));
    ParseToString(Ref("content", "post", id));
  }
}

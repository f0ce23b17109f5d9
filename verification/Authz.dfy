/** The authorization service: trailing-wildcard patterns, roles and direct grants. */
module Authz {
  import opened Calls
  import opened Refs
  import opened Histories

  const WILDCARD := "*"
  const MAX_ACTION_LENGTH := 64

  datatype Pattern = Pattern(action: string, resource: string)
  datatype Grant = Grant(subject: string, action: string, resource: string)
  datatype Assignment = Assignment(subject: string, role: string)

  /** The roles that exist and the patterns each of them holds. No operation writes it. */
  type RoleTable = map<string, set<Pattern>>

  datatype State = State(assignments: set<Assignment>, grants: set<Grant>)

  datatype Error = InvalidReference | InvalidAction | UnknownRole | StorageFailed
  datatype Answer = Done | Refused(error: Error)
  datatype Decision = Decided(allowed: bool) | Undecided(error: Error)

  predicate Matches(pattern: string, value: string) {
    if pattern == WILDCARD then true
    else if |pattern| > 0 && pattern[|pattern| - 1] == '*' then pattern[..|pattern| - 1] <= value
    else pattern == value
  }

  /** A trailing wildcard matches every continuation; any other pattern matches itself. */
  lemma MatchesExactly(pattern: string, value: string)
    ensures Matches(pattern + WILDCARD, value) <==> exists rest :: value == pattern + rest
    ensures (forall front :: pattern != front + WILDCARD) ==> (Matches(pattern, value) <==> value == pattern)
  {
    var trailing := pattern + WILDCARD;
    assert trailing[|trailing| - 1] == '*' && trailing[..|trailing| - 1] == pattern;
    if pattern <= value {
      assert value == pattern + value[|pattern|..];
    }
    if |pattern| > 0 && pattern[|pattern| - 1] == '*' {
      assert pattern == pattern[..|pattern| - 1] + WILDCARD;
    }
  }

  predicate Allows(patterns: set<Pattern>, action: string, resource: string) {
    exists p :: p in patterns && Matches(p.action, action) && Matches(p.resource, resource)
  }

  predicate ActionChar(c: char) {
    'a' <= c <= 'z' || '0' <= c <= '9' || c in {'.', '_', '-'}
  }

  predicate ValidAction(action: string) {
    0 < |action| <= MAX_ACTION_LENGTH && forall i :: 0 <= i < |action| ==> ActionChar(action[i])
  }

  /** A concrete reference, everything, or a class written as a prefix and a wildcard. */
  predicate ValidQuery(resource: string) {
    if resource == WILDCARD then true
    else if |resource| > 0 && resource[|resource| - 1] == '*' then IsRef(resource[..|resource| - 1] + "x")
    else IsRef(resource)
  }

  // ---------------------------------------------------------------- class queries

  predicate TrailingWildcardOnly(pattern: string) {
    forall i :: 0 <= i < |pattern| - 1 ==> pattern[i] != '*'
  }

  /** Replacing the last character of an id by another id character keeps a reference valid. */
  lemma OtherMember(p: string)
    requires IsRef(p + "x")
    ensures IsRef(p + "y")
  {
    ToStringParse(p + "x");
    var r := Parse(p + "x").value;
    var n := |r.id| - 1;
    var head := PREFIX + ":" + r.service + ":" + r.resourceType + ":";
    assert p + "x" == head + r.id;
    assert p == (p + "x")[..|p|] == (head + r.id)[..|head| + n] == head + r.id[..n];
    var other := r.(id := r.id[..n] + "y");
    assert forall i :: 0 <= i < |other.id| ==> IDChar(other.id[i]);
    ParseToString(other);
    assert other.ToString() == p + "y";
  }

  /** `urn:`, a service, a type and perhaps the beginning of an id. */
  predicate ClassPrefix(p: string, service: string, resourceType: string, id: string) {
    && ValidName(service) && ValidName(resourceType)
    && |id| < MAX_ID_LENGTH && (forall i :: 0 <= i < |id| ==> IDChar(id[i]))
    && p == PREFIX + ":" + service + ":" + resourceType + ":" + id
  }

  lemma ClassPrefixOf(p: string) returns (service: string, resourceType: string, id: string)
    requires IsRef(p + "x")
    ensures ClassPrefix(p, service, resourceType, id)
  {
    ToStringParse(p + "x");
    var r := Parse(p + "x").value;
    service, resourceType, id := r.service, r.resourceType, r.id[..|r.id| - 1];
    var head := PREFIX + ":" + service + ":" + resourceType + ":";
    assert p + "x" == head + r.id;
    assert p == (p + "x")[..|p|] == (head + r.id)[..|head| + |id|] == head + id;
  }

  lemma ClassPrefixTakesAnId(p: string, service: string, resourceType: string, id: string)
    requires ClassPrefix(p, service, resourceType, id)
    ensures IsRef(p + "x")
  {
    var r := Ref(service, resourceType, id + "x");
    assert forall i :: 0 <= i < |r.id| ==> IDChar(r.id[i]);
    ParseToString(r);
    var head := PREFIX + ":" + service + ":" + resourceType + ":";
    assert r.ToString() == head + (id + "x") == p + "x";
  }

  /** Which wildcard queries are accepted: everything, or within one type of one service. */
  lemma WildcardQueries(p: string)
    ensures ValidQuery(p + WILDCARD)
       <==> p == "" || exists service, resourceType, id :: ClassPrefix(p, service, resourceType, id)
  {
    var query := p + WILDCARD;
    assert query[..|p|] == p && query[|p|] == '*';
    if p == "" {
      assert query == WILDCARD;
    } else if ValidQuery(query) {
      var service, resourceType, id := ClassPrefixOf(p);
    } else if service, resourceType, id :| ClassPrefix(p, service, resourceType, id) {
      ClassPrefixTakesAnId(p, service, resourceType, id);
    }
  }

  /** A query over a whole service is refused, for every service. */
  lemma WholeServiceRefused(service: string)
    requires ValidName(service)
    ensures !ValidQuery(PREFIX + ":" + service + ":" + WILDCARD)
  {
    var p := PREFIX + ":" + service + ":";
    var query := p + WILDCARD;
    assert query[..|p|] == p && query[|p|] == '*';
    SegmentsColonFree("x");
    SegmentsPrepend(service, "x");
    SegmentsPrepend(PREFIX, service + ":" + "x");
    assert p + "x" == PREFIX + ":" + (service + ":" + "x");
    assert ':' !in service;
    assert |Segments(p + "x")| == 3;
  }

  lemma PrefixWithout(s: string, p: string, c: char)
    requires s <= p + [c] && c !in s
    ensures s <= p
  {
    assert (p + [c])[|p|] == c;
  }

  lemma CommonPrefix(s: string, p: string, c: char, d: char)
    requires c != d && s <= p + [c] && s <= p + [d]
    ensures s <= p && s <= p + "*"
  {
    assert (p + [c])[|p|] == c && (p + [d])[|p|] == d;
    assert |s| <= |p|;
    assert s == (p + [c])[..|s|] == p[..|s|];
  }

  /** A class query is answered by one pattern exactly when that pattern matches every
      valid reference in the class. */
  lemma ClassQueryMeansEveryMember(pattern: string, p: string)
    requires TrailingWildcardOnly(pattern)
    requires p != "" && ValidQuery(p + WILDCARD)
    ensures Matches(pattern, p + WILDCARD)
       <==> forall v :: IsRef(v) && p <= v ==> Matches(pattern, v)
  {
    var query := p + WILDCARD;
    assert query[..|p|] == p && query[|p|] == '*';
    OtherMember(p);
    RefHasNoWildcard(p + "x");
    assert p <= p + "x" && p <= p + "y" && (p + "x")[|p|] != (p + "y")[|p|];
    assert forall i :: 0 <= i < |p| ==> p[i] == (p + "x")[i];
    if pattern != WILDCARD && |pattern| > 0 && pattern[|pattern| - 1] == '*' {
      var prefix := pattern[..|pattern| - 1];
      assert forall i :: 0 <= i < |prefix| ==> prefix[i] == pattern[i] != '*';
      if prefix <= query {
        PrefixWithout(prefix, p, '*');
        forall v | IsRef(v) && p <= v ensures Matches(pattern, v) {
          assert prefix == p[..|prefix|] == v[..|prefix|];
        }
      } else if prefix <= p + "x" && prefix <= p + "y" {
        CommonPrefix(prefix, p, 'x', 'y');
        assert false;
      }
    } else if pattern != WILDCARD {
      assert pattern != query;
      assert !(Matches(pattern, p + "x") && Matches(pattern, p + "y"));
    }
  }

  /** What a subject may do to a class it may do to every member; the converse needs one pattern
      that covers the class, not a union of patterns. */
  lemma AllowedClassAllowsMembers(patterns: set<Pattern>, action: string, p: string, v: string)
    requires forall q :: q in patterns ==> TrailingWildcardOnly(q.resource)
    requires p != "" && ValidQuery(p + WILDCARD) && Allows(patterns, action, p + WILDCARD)
    requires IsRef(v) && p <= v
    ensures Allows(patterns, action, v)
  {
  }

  // ---------------------------------------------------------------- the service

  ghost predicate Concrete(st: State) {
    && (forall g :: g in st.grants ==> IsRef(g.subject) && ValidAction(g.action) && IsRef(g.resource))
    && (forall a :: a in st.assignments ==> IsRef(a.subject))
  }

  /** Everything a subject holds: the patterns of its roles and its direct grants. */
  function SubjectPatterns(table: RoleTable, st: State, subject: string): set<Pattern> {
    (set a, p | a in st.assignments && a.subject == subject && a.role in table && p in table[a.role] :: p)
    + (set g | g in st.grants && g.subject == subject :: Pattern(g.action, g.resource))
  }

  function Can(table: RoleTable, st: State, subject: string, action: string, resource: string): Decision {
    if !IsRef(subject) then Undecided(InvalidReference)
    else if !ValidAction(action) then Undecided(InvalidAction)
    else if !ValidQuery(resource) then Undecided(InvalidReference)
    else Decided(Allows(SubjectPatterns(table, st, subject), action, resource))
  }

  predicate RoleCovers(table: RoleTable, role: string, action: string, resource: string) {
    role in table
    && exists p :: p in table[role] && Matches(p.action, action) && Matches(p.resource, resource)
  }

  /** On a concrete resource a decision is a direct grant or a held role that covers it. */
  lemma ConcreteDecision(table: RoleTable, st: State, subject: string, action: string, resource: string)
    requires Concrete(st) && ValidAction(action) && IsRef(resource)
    ensures Allows(SubjectPatterns(table, st, subject), action, resource)
       <==> Grant(subject, action, resource) in st.grants
            || exists role :: Assignment(subject, role) in st.assignments && RoleCovers(table, role, action, resource)
  {
    var patterns := SubjectPatterns(table, st, subject);
    if Grant(subject, action, resource) in st.grants {
      assert Pattern(action, resource) in patterns;
    }
    if role :| Assignment(subject, role) in st.assignments && RoleCovers(table, role, action, resource) {
      var p :| p in table[role] && Matches(p.action, action) && Matches(p.resource, resource);
      assert p in patterns;
    }
    if Allows(patterns, action, resource) {
      var p :| p in patterns && Matches(p.action, action) && Matches(p.resource, resource);
      if a :| a in st.assignments && a.subject == subject && a.role in table && p in table[a.role] {
        assert a == Assignment(subject, a.role) && RoleCovers(table, a.role, action, resource);
      } else {
        var g :| g in st.grants && g.subject == subject && p == Pattern(g.action, g.resource);
        ConcreteMatch(p.action, action, p.resource, resource);
        assert g == Grant(subject, action, resource);
      }
    }
  }

  lemma ConcreteMatch(action: string, asked: string, resource: string, wanted: string)
    requires ValidAction(action) && IsRef(resource)
    ensures Matches(action, asked) <==> action == asked
    ensures Matches(resource, wanted) <==> resource == wanted
  {
    RefHasNoWildcard(resource);
    assert ActionChar(action[|action| - 1]);
    assert action != WILDCARD by { assert ActionChar(action[0]); }
    assert resource != "" by { ToStringParse(resource); }
    assert resource[|resource| - 1] in resource;
  }

  /** Direct grants name single resources, so they never answer a question about a class. */
  lemma GrantsNeverAnswerClasses(table: RoleTable, st: State, subject: string, action: string, p: string)
    requires Concrete(st)
    ensures Allows(SubjectPatterns(table, st, subject), action, p + WILDCARD)
       <==> Allows(SubjectPatterns(table, st.(grants := {}), subject), action, p + WILDCARD)
  {
    var query := p + WILDCARD;
    assert query[|p|] == '*';
    var patterns := SubjectPatterns(table, st, subject);
    var fromRoles := SubjectPatterns(table, st.(grants := {}), subject);
    forall q | q in patterns && Matches(q.resource, query) ensures q in fromRoles {
      if g :| g in st.grants && g.subject == subject && q == Pattern(g.action, g.resource) {
        ConcreteMatch(g.action, action, g.resource, query);
        RefHasNoWildcard(g.resource);
        assert false;
      }
    }
    assert fromRoles <= patterns;
  }

  // ---------------------------------------------------------------- operations and histories

  datatype Op =
    | AssignRole(subject: string, role: string, lookup: bool, fate: Fate)
    | RevokeRole(subject: string, role: string, fate: Fate)
    | GrantActions(subject: string, actions: seq<string>, resource: string, fate: Fate)
    | PurgeSubject(subject: string, fate: Fate)
    | PurgeResource(resource: string, fate: Fate)

  function ReplyTo(table: RoleTable, op: Op): Answer {
    match op
    case AssignRole(subject, role, lookup, fate) =>
      if !IsRef(subject) then Refused(InvalidReference)
      else if !lookup then Refused(StorageFailed)
      else if role !in table then Refused(UnknownRole)
      else Reported(fate)
    case RevokeRole(subject, _, fate) =>
      if !IsRef(subject) then Refused(InvalidReference) else Reported(fate)
    case GrantActions(subject, actions, resource, fate) =>
      if !IsRef(subject) || !IsRef(resource) then Refused(InvalidReference)
      else if |actions| == 0 || exists i :: 0 <= i < |actions| && !ValidAction(actions[i])
      then Refused(InvalidAction)
      else Reported(fate)
    case PurgeSubject(subject, fate) =>
      if !IsRef(subject) then Refused(InvalidReference) else Reported(fate)
    case PurgeResource(resource, fate) =>
      if !IsRef(resource) then Refused(InvalidReference) else Reported(fate)
  }

  function Reported(fate: Fate): Answer {
    if fate == Works then Done else Refused(StorageFailed)
  }

  /** The write of an operation is reached and takes effect. */
  predicate Lands(table: RoleTable, op: Op) {
    ReplyTo(table, op.(fate := Works)) == Done && op.fate.Lands()
  }

  function After(table: RoleTable, st: State, op: Op): State {
    if !Lands(table, op) then st
    else match op
      case AssignRole(subject, role, _, _) =>
        st.(assignments := st.assignments + {Assignment(subject, role)})
      case RevokeRole(subject, role, _) =>
        st.(assignments := st.assignments - {Assignment(subject, role)})
      case GrantActions(subject, actions, resource, _) =>
        st.(grants := st.grants + GrantRows(subject, actions, resource))
      case PurgeSubject(subject, _) =>
        State(set a | a in st.assignments && a.subject != subject,
              set g | g in st.grants && g.subject != subject)
      case PurgeResource(resource, _) =>
        st.(grants := set g | g in st.grants && g.resource != resource)
  }

  function GrantRows(subject: string, actions: seq<string>, resource: string): set<Grant> {
    set a | a in actions :: Grant(subject, a, resource)
  }

  function Run(table: RoleTable, ops: seq<Op>): State {
    if ops == [] then State({}, {})
    else After(table, Run(table, ops[..|ops| - 1]), ops[|ops| - 1])
  }

  // What one operation, on its own, gives to or takes from a subject.

  predicate GivesGrant(op: Op, g: Grant) {
    && op.GrantActions? && op.fate.Lands() && g == Grant(op.subject, g.action, op.resource) && g.action in op.actions
    && IsRef(op.subject) && IsRef(op.resource) && forall i :: 0 <= i < |op.actions| ==> ValidAction(op.actions[i])
  }

  predicate TakesGrant(op: Op, g: Grant) {
    || (op.PurgeSubject? && op.fate.Lands() && IsRef(op.subject) && op.subject == g.subject)
    || (op.PurgeResource? && op.fate.Lands() && IsRef(op.resource) && op.resource == g.resource)
  }

  predicate GivesRole(table: RoleTable, op: Op, a: Assignment) {
    && op.AssignRole? && op.fate.Lands() && a == Assignment(op.subject, op.role)
    && IsRef(op.subject) && op.lookup && op.role in table
  }

  predicate TakesRole(op: Op, a: Assignment) {
    || (op.PurgeSubject? && op.fate.Lands() && IsRef(op.subject) && op.subject == a.subject)
    || (op.RevokeRole? && op.fate.Lands() && IsRef(op.subject) && a == Assignment(op.subject, op.role))
  }

  /** An operation reports success exactly when its call worked and afterwards what it gives is
      there, every row of it, and what it takes is gone. */
  lemma SuccessIsTrue(table: RoleTable, st: State, op: Op)
    requires IsRef(if op.PurgeResource? then op.resource else op.subject)
    ensures var after := After(table, st, op);
            (ReplyTo(table, op) == Done
             <==> && op.fate == Works
                  && match op
                     case AssignRole(subject, role, lookup, _) =>
                       lookup && role in table && Assignment(subject, role) in after.assignments
                     case RevokeRole(subject, role, _) => Assignment(subject, role) !in after.assignments
                     case GrantActions(subject, actions, resource, _) =>
                       && actions != [] && IsRef(resource)
                       && forall i :: 0 <= i < |actions| ==>
                            ValidAction(actions[i]) && Grant(subject, actions[i], resource) in after.grants
                     case PurgeSubject(subject, _) =>
                       && (forall a :: a in after.assignments ==> a.subject != subject)
                       && (forall g :: g in after.grants ==> g.subject != subject)
                     case PurgeResource(resource, _) => forall g :: g in after.grants ==> g.resource != resource)
    ensures ReplyTo(table, op) == Refused(UnknownRole) <==> op.AssignRole? && op.lookup && op.role !in table
    ensures ReplyTo(table, op) == Refused(InvalidAction)
       <==> && op.GrantActions? && IsRef(op.resource)
            && (op.actions == [] || exists i :: 0 <= i < |op.actions| && !ValidAction(op.actions[i]))
  {
  }

  ghost predicate GrantInForce(ops: seq<Op>, g: Grant) {
    Survives(ops, op => GivesGrant(op, g), op => TakesGrant(op, g))
  }

  ghost predicate RoleInForce(table: RoleTable, ops: seq<Op>, a: Assignment) {
    Survives(ops, op => GivesRole(table, op, a), op => TakesRole(op, a))
  }

  lemma FrontAndLast(ops: seq<Op>)
    requires ops != []
    ensures ops == ops[..|ops| - 1] + [ops[|ops| - 1]]
  {
  }

  lemma GrantOneMore(before: seq<Op>, op: Op, g: Grant)
    ensures GrantInForce(before + [op], g)
       <==> GivesGrant(op, g) || (GrantInForce(before, g) && !TakesGrant(op, g))
  {
    SurvivesOneMore(before, op, o => GivesGrant(o, g), o => TakesGrant(o, g));
  }

  lemma RoleOneMore(table: RoleTable, before: seq<Op>, op: Op, a: Assignment)
    ensures RoleInForce(table, before + [op], a)
       <==> GivesRole(table, op, a) || (RoleInForce(table, before, a) && !TakesRole(op, a))
  {
    SurvivesOneMore(before, op, o => GivesRole(table, o, a), o => TakesRole(o, a));
  }

  /** What one operation does to one row of either table. */
  lemma AfterRow(table: RoleTable, st: State, op: Op, g: Grant, a: Assignment)
    ensures g in After(table, st, op).grants
       <==> GivesGrant(op, g) || (g in st.grants && !TakesGrant(op, g))
    ensures a in After(table, st, op).assignments
       <==> GivesRole(table, op, a) || (a in st.assignments && !TakesRole(op, a))
  {
  }

  lemma {:induction false} StoreEqualsHistory(table: RoleTable, ops: seq<Op>, g: Grant, a: Assignment)
    ensures g in Run(table, ops).grants <==> GrantInForce(ops, g)
    ensures a in Run(table, ops).assignments <==> RoleInForce(table, ops, a)
  {
    if ops != [] {
      var before, op := ops[..|ops| - 1], ops[|ops| - 1];
      StoreEqualsHistory(table, before, g, a);
      FrontAndLast(ops);
      GrantOneMore(before, op, g);
      RoleOneMore(table, before, op, a);
      AfterRow(table, Run(table, before), op, g, a);
    }
  }

  lemma {:induction false} StoredRowsAreConcrete(table: RoleTable, ops: seq<Op>)
    ensures Concrete(Run(table, ops))
  {
    if ops != [] {
      StoredRowsAreConcrete(table, ops[..|ops| - 1]);
    }
  }

  /** A decision about one resource is what the history says: a landed grant of that action on
      that resource with no landed purge of either side since, or a covering role assigned and
      neither revoked nor purged since. */
  lemma DecisionsEqualHistory(table: RoleTable, ops: seq<Op>, subject: string, action: string, resource: string)
    requires IsRef(subject) && ValidAction(action) && IsRef(resource)
    ensures Can(table, Run(table, ops), subject, action, resource)
         == Decided(|| GrantInForce(ops, Grant(subject, action, resource))
                    || exists role :: RoleInForce(table, ops, Assignment(subject, role))
                         && RoleCovers(table, role, action, resource))
  {
    var st := Run(table, ops);
    StoredRowsAreConcrete(table, ops);
    ConcreteDecision(table, st, subject, action, resource);
    ConcreteQuery(resource);
    forall role
      ensures Assignment(subject, role) in st.assignments <==> RoleInForce(table, ops, Assignment(subject, role))
    {
      StoreEqualsHistory(table, ops, Grant(subject, action, resource), Assignment(subject, role));
    }
    StoreEqualsHistory(table, ops, Grant(subject, action, resource), Assignment(subject, ""));
  }

  /** No pattern of a role has a wildcard but at its end. */
  ghost predicate TrailingTable(table: RoleTable) {
    forall role, p :: role in table && p in table[role] ==> TrailingWildcardOnly(p.resource)
  }

  /** By history, a role in force has a pattern for the action that this class of resources meets. */
  ghost predicate RoleInForceCovers(table: RoleTable, ops: seq<Op>, subject: string, action: string,
                                    covers: string -> bool) {
    exists role, p :: RoleInForce(table, ops, Assignment(subject, role)) && role in table && p in table[role]
      && Matches(p.action, action) && covers(p.resource)
  }

  /** Without grants, what a subject may do is what some held role's pattern says. */
  lemma RoleDecision(table: RoleTable, ops: seq<Op>, subject: string, action: string, query: string,
                     covers: string -> bool)
    requires forall role, p :: role in table && p in table[role] ==>
               (Matches(p.resource, query) <==> covers(p.resource))
    ensures Allows(SubjectPatterns(table, Run(table, ops).(grants := {}), subject), action, query)
       <==> RoleInForceCovers(table, ops, subject, action, covers)
  {
    var st := Run(table, ops);
    var patterns := SubjectPatterns(table, st.(grants := {}), subject);
    forall a ensures a in st.assignments <==> RoleInForce(table, ops, a) {
      StoreEqualsHistory(table, ops, Grant("", "", ""), a);
    }
    if Allows(patterns, action, query) {
      var p :| p in patterns && Matches(p.action, action) && Matches(p.resource, query);
      var a :| a in st.assignments && a.subject == subject && a.role in table && p in table[a.role];
      assert a == Assignment(subject, a.role);
    }
    if RoleInForceCovers(table, ops, subject, action, covers) {
      var role, p :| RoleInForce(table, ops, Assignment(subject, role)) && role in table && p in table[role]
        && Matches(p.action, action) && covers(p.resource);
      assert Assignment(subject, role) in st.assignments && p in patterns;
    }
  }

  /** A decision about a class is what the history of roles says: allowed if and only if a role
      assigned and not taken since has one pattern for the action that matches every valid
      reference of the class. */
  lemma ClassDecisionsEqualHistory(table: RoleTable, ops: seq<Op>, subject: string, action: string, p: string)
    requires TrailingTable(table) && IsRef(subject) && ValidAction(action)
    requires p != "" && ValidQuery(p + WILDCARD)
    ensures Can(table, Run(table, ops), subject, action, p + WILDCARD)
         == Decided(RoleInForceCovers(table, ops, subject, action,
                                      pattern => forall v :: IsRef(v) && p <= v ==> Matches(pattern, v)))
  {
    var query := p + WILDCARD;
    var covers := pattern => forall v :: IsRef(v) && p <= v ==> Matches(pattern, v);
    StoredRowsAreConcrete(table, ops);
    GrantsNeverAnswerClasses(table, Run(table, ops), subject, action, p);
    forall role, q | role in table && q in table[role] ensures Matches(q.resource, query) <==> covers(q.resource) {
      ClassQueryMeansEveryMember(q.resource, p);
    }
    RoleDecision(table, ops, subject, action, query, covers);
  }

  /** Everything may be asked about too: only a pattern for everything answers it. */
  lemma EverythingDecisionsEqualHistory(table: RoleTable, ops: seq<Op>, subject: string, action: string)
    requires TrailingTable(table) && IsRef(subject) && ValidAction(action)
    ensures Can(table, Run(table, ops), subject, action, WILDCARD)
         == Decided(RoleInForceCovers(table, ops, subject, action, pattern => pattern == WILDCARD))
  {
    assert "" + WILDCARD == WILDCARD;
    StoredRowsAreConcrete(table, ops);
    GrantsNeverAnswerClasses(table, Run(table, ops), subject, action, "");
    forall role, q | role in table && q in table[role]
      ensures Matches(q.resource, WILDCARD) <==> q.resource == WILDCARD
    {
      OnlyEverythingMatches(q.resource);
    }
    RoleDecision(table, ops, subject, action, WILDCARD, pattern => pattern == WILDCARD);
  }

  lemma OnlyEverythingMatches(pattern: string)
    requires TrailingWildcardOnly(pattern)
    ensures Matches(pattern, WILDCARD) <==> pattern == WILDCARD
  {
    if pattern != WILDCARD && |pattern| > 0 && pattern[|pattern| - 1] == '*' {
      assert pattern[0] != '*';
    }
  }

  /** Malformed questions, and only those, are refused. */
  lemma DecidedExactlyWhen(table: RoleTable, st: State, subject: string, action: string, resource: string)
    ensures Can(table, st, subject, action, resource).Decided?
       <==> && IsRef(subject) && ValidAction(action)
            && (|| IsRef(resource) || resource == WILDCARD
                || exists p, service, resourceType, id ::
                     resource == p + WILDCARD && ClassPrefix(p, service, resourceType, id))
  {
    if |resource| > 0 && resource[|resource| - 1] == '*' {
      var p := resource[..|resource| - 1];
      assert resource == p + WILDCARD;
      WildcardQueries(p);
      if IsRef(resource) { RefHasNoWildcard(resource); }
      forall q | resource == q + WILDCARD ensures q == p {
        assert q == (q + WILDCARD)[..|q|];
      }
      assert resource == WILDCARD <==> p == "";
    } else {
      forall q ensures resource != q + WILDCARD {
        assert (q + WILDCARD)[|q|] == '*';
      }
    }
  }

  lemma ConcreteQuery(resource: string)
    requires IsRef(resource)
    ensures ValidQuery(resource)
  {
    RefHasNoWildcard(resource);
  }

  lemma SameHoldings(table: RoleTable, st: State, st': State, subject: string)
    requires forall a :: a in st.assignments && a.subject == subject ==> a in st'.assignments
    requires forall g :: g in st.grants && g.subject == subject ==> g in st'.grants
    ensures SubjectPatterns(table, st, subject) <= SubjectPatterns(table, st', subject)
  {
  }

  /** Whatever a subject-side operation does, it changes no decision about another subject; and
      purging a resource changes none about another concrete resource or about any class. */
  lemma OthersUntouched(table: RoleTable, st: State, op: Op, subject: string, action: string, resource: string)
    requires Concrete(st) && ValidQuery(resource)
    requires if op.PurgeResource? then resource != op.resource else op.subject != subject
    ensures Can(table, After(table, st, op), subject, action, resource)
         == Can(table, st, subject, action, resource)
  {
    var before := SubjectPatterns(table, st, subject);
    var after := SubjectPatterns(table, After(table, st, op), subject);
    if op.PurgeResource? {
      forall p | p in before && p !in after ensures !Matches(p.resource, resource) {
        var g :| g in st.grants && g.subject == subject && p == Pattern(g.action, g.resource);
        assert g.resource != op.resource ==> g in After(table, st, op).grants;
        ConcreteMatch(g.action, action, g.resource, resource);
      }
      assert after <= before;
    } else {
      SameHoldings(table, st, After(table, st, op), subject);
      SameHoldings(table, After(table, st, op), st, subject);
      assert before == after;
    }
  }

  /** The role half of what a subject holds, taken role by role. */
  lemma RolePatterns(table: RoleTable, st: State, subject: string, held: set<string>, patterns: set<Pattern>)
    requires held == set a | a in st.assignments && a.subject == subject && a.role in table :: a.role
    requires patterns == set role, p | role in held && p in table[role] :: p
    ensures patterns
         == set a, p | a in st.assignments && a.subject == subject && a.role in table && p in table[a.role] :: p
  {
  }

  // ---------------------------------------------------------------- the stateful service

  class Service {
    const roles: RoleTable
    var assignments: set<Assignment>
    var grants: set<Grant>

    constructor (roles: RoleTable)
      ensures this.roles == roles && Current() == State({}, {})
    {
      this.roles := roles;
      assignments, grants := {}, {};
    }

    function Current(): State reads this { State(assignments, grants) }

    /** Roles and direct grants together, each pattern once. */
    method PatternsOf(subject: string) returns (patterns: set<Pattern>)
      ensures patterns == SubjectPatterns(roles, Current(), subject)
    {
      var held := set a | a in assignments && a.subject == subject && a.role in roles :: a.role;
      var fromRoles := set role, p | role in held && p in roles[role] :: p;
      var direct := set g | g in grants && g.subject == subject :: Pattern(g.action, g.resource);
      patterns := fromRoles + direct;
      RolePatterns(roles, Current(), subject, held, fromRoles);
    }

    method Check(subject: string, action: string, resource: string, read: bool) returns (decision: Decision)
      ensures var specified := Can(roles, Current(), subject, action, resource);
              decision == if !read && specified.Decided? then Undecided(StorageFailed) else specified
    {
      if !IsRef(subject) {
        return Undecided(InvalidReference);
      }
      if !ValidAction(action) {
        return Undecided(InvalidAction);
      }
      if !ValidQuery(resource) {
        return Undecided(InvalidReference);
      }
      if !read {
        return Undecided(StorageFailed);
      }
      var patterns := PatternsOf(subject);
      return Decided(Allows(patterns, action, resource));
    }

    method Assign(subject: string, role: string, lookup: bool, fate: Fate) returns (answer: Answer)
      modifies this
      ensures Current() == After(roles, old(Current()), AssignRole(subject, role, lookup, fate))
      ensures answer == ReplyTo(roles, AssignRole(subject, role, lookup, fate))
    {
      if !IsRef(subject) {
        return Refused(InvalidReference);
      }
      if !lookup {
        return Refused(StorageFailed);
      }
      if role !in roles {
        return Refused(UnknownRole);
      }
      if fate.Lands() {
        assignments := assignments + {Assignment(subject, role)};
      }
      return Reported(fate);
    }

    method Revoke(subject: string, role: string, fate: Fate) returns (answer: Answer)
      modifies this
      ensures Current() == After(roles, old(Current()), RevokeRole(subject, role, fate))
      ensures answer == ReplyTo(roles, RevokeRole(subject, role, fate))
    {
      if !IsRef(subject) {
        return Refused(InvalidReference);
      }
      if fate.Lands() {
        assignments := assignments - {Assignment(subject, role)};
      }
      return Reported(fate);
    }

    /** Every action is checked before any row is written, and all rows go in together. */
    method GrantAll(subject: string, actions: seq<string>, resource: string, fate: Fate) returns (answer: Answer)
      modifies this
      ensures Current() == After(roles, old(Current()), GrantActions(subject, actions, resource, fate))
      ensures answer == ReplyTo(roles, GrantActions(subject, actions, resource, fate))
    {
      if !IsRef(subject) || !IsRef(resource) {
        return Refused(InvalidReference);
      }
      if |actions| == 0 {
        return Refused(InvalidAction);
      }
      for i := 0 to |actions|
        invariant forall k :: 0 <= k < i ==> ValidAction(actions[k])
      {
        if !ValidAction(actions[i]) {
          return Refused(InvalidAction);
        }
      }
      var rows: set<Grant> := {};
      for i := 0 to |actions|
        invariant rows == GrantRows(subject, actions[..i], resource)
      {
        assert actions[..i + 1] == actions[..i] + [actions[i]];
        rows := rows + {Grant(subject, actions[i], resource)};
      }
      assert actions[..|actions|] == actions;
      if fate.Lands() {
        grants := grants + rows;
      }
      return Reported(fate);
    }

    /** One transaction over both tables. */
    method PurgeAllOf(subject: string, fate: Fate) returns (answer: Answer)
      modifies this
      ensures Current() == After(roles, old(Current()), PurgeSubject(subject, fate))
      ensures answer == ReplyTo(roles, PurgeSubject(subject, fate))
    {
      if !IsRef(subject) {
        return Refused(InvalidReference);
      }
      if fate.Lands() {
        grants := set g | g in grants && g.subject != subject;
        assignments := set a | a in assignments && a.subject != subject;
      }
      return Reported(fate);
    }

    method PurgeAllOver(resource: string, fate: Fate) returns (answer: Answer)
      modifies this
      ensures Current() == After(roles, old(Current()), PurgeResource(resource, fate))
      ensures answer == ReplyTo(roles, PurgeResource(resource, fate))
    {
      if !IsRef(resource) {
        return Refused(InvalidReference);
      }
      if fate.Lands() {
        grants := set g | g in grants && g.resource != resource;
      }
      return Reported(fate);
    }
  }
}

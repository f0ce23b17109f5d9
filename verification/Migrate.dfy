/** The migration runner: loading the files, one run of `Up`, and the lifetime of a database. */
module Migrate {
  import opened Calls

  datatype Record = Record(version: int, name: string, checksum: string)
  datatype Migration = Migration(version: int, name: string, checksum: string, statements: string)

  /** A directory entry; a file without content is one that cannot be read. */
  datatype Entry = Entry(name: string, isDir: bool, content: Option<string>)

  datatype LoadError = InvalidFileName(name: string) | DuplicateVersion(version: int) | Unreadable(name: string)
  datatype Loaded = Loaded(migrations: seq<Migration>) | NotLoaded(error: LoadError)

  function RecordOf(m: Migration): Record { Record(m.version, m.name, m.checksum) }

  function RecordsOf(ms: seq<Migration>): seq<Record> {
    seq(|ms|, i requires 0 <= i < |ms| => RecordOf(ms[i]))
  }

  // ---------------------------------------------------------------- loading

  predicate IsDigit(c: char) { '0' <= c <= '9' }
  predicate NameChar(c: char) { 'a' <= c <= 'z' || IsDigit(c) || c == '_' }

  function DigitValue(c: char): nat
    requires IsDigit(c)
  {
    c as int - '0' as int
  }

  /** The version and name in `NNNN_name.sql`. */
  function ParseName(name: string): Option<(int, string)> {
    if |name| > 9 && IsDigit(name[0]) && IsDigit(name[1]) && IsDigit(name[2]) && IsDigit(name[3])
       && name[4] == '_' && name[|name| - 4..] == ".sql"
       && forall i :: 5 <= i < |name| - 4 ==> NameChar(name[i])
    then
      var version := DigitValue(name[0]) * 1000 + DigitValue(name[1]) * 100
                     + DigitValue(name[2]) * 10 + DigitValue(name[3]);
      Some((version, name[5..|name| - 4]))
    else None
  }

  function DigitOf(d: nat): char
    requires d < 10
  {
    '0' + d as char
  }

  /** A version as its four decimal digits. */
  function FourDigits(version: nat): (s: string)
    requires version < 10000
    ensures |s| == 4
  {
    [DigitOf(version / 1000), DigitOf(version / 100 % 10), DigitOf(version / 10 % 10), DigitOf(version % 10)]
  }

  lemma DigitsReadBack(a: char, b: char, c: char, d: char)
    requires IsDigit(a) && IsDigit(b) && IsDigit(c) && IsDigit(d)
    ensures var v := DigitValue(a) * 1000 + DigitValue(b) * 100 + DigitValue(c) * 10 + DigitValue(d);
            v < 10000 && FourDigits(v) == [a, b, c, d]
  {
    var v := DigitValue(a) * 1000 + DigitValue(b) * 100 + DigitValue(c) * 10 + DigitValue(d);
    LastDigit(DigitValue(a) * 100 + DigitValue(b) * 10 + DigitValue(c), DigitValue(d));
    LastDigit(DigitValue(a) * 10 + DigitValue(b), DigitValue(c));
    LastDigit(DigitValue(a), DigitValue(b));
    TenByTen(v);
  }

  lemma LastDigit(front: nat, digit: nat)
    requires digit < 10
    ensures (front * 10 + digit) / 10 == front && (front * 10 + digit) % 10 == digit
  {
  }

  lemma TenByTen(n: nat)
    ensures n / 100 == n / 10 / 10 && n / 1000 == n / 100 / 10
  {
  }

  lemma FourDigitsValue(version: nat)
    requires version < 10000
    ensures var s := FourDigits(version);
            && (forall c :: c in s ==> IsDigit(c))
            && DigitValue(s[0]) * 1000 + DigitValue(s[1]) * 100 + DigitValue(s[2]) * 10 + DigitValue(s[3]) == version
  {
    TenByTen(version);
  }

  lemma NameParts(four: string, name: string)
    requires |four| == 4
    ensures var whole := four + "_" + name + ".sql";
            && |whole| == |name| + 9 && whole[..4] == four && whole[4] == '_'
            && whole[5..|whole| - 4] == name && whole[|whole| - 4..] == ".sql"
  {
  }

  lemma PartsOfName(whole: string)
    requires |whole| > 9 && whole[4] == '_' && whole[|whole| - 4..] == ".sql"
    ensures whole == whole[..4] + "_" + whole[5..|whole| - 4] + ".sql"
  {
  }

  /** The files are those named by four digits, an underscore and a plain name. */
  lemma ParseNameExactly(whole: string, version: int, name: string)
    ensures ParseName(whole) == Some((version, name))
       <==> && 0 <= version < 10000 && name != "" && (forall c :: c in name ==> NameChar(c))
            && whole == FourDigits(version) + "_" + name + ".sql"
  {
    if ParseName(whole) == Some((version, name)) {
      PartsOfName(whole);
      DigitsReadBack(whole[0], whole[1], whole[2], whole[3]);
      assert whole[..4] == [whole[0], whole[1], whole[2], whole[3]];
      forall c | c in name ensures NameChar(c) {
        var i :| 0 <= i < |name| && name[i] == c;
        assert c == whole[i + 5];
      }
    } else if 0 <= version < 10000 && whole == FourDigits(version) + "_" + name + ".sql" {
      FourDigitsValue(version);
      NameParts(FourDigits(version), name);
      assert forall i :: 5 <= i < |whole| - 4 ==> whole[i] == name[i - 5];
    }
  }

  predicate IsFileOf(entry: Entry, version: int) {
    !entry.isDir && ParseName(entry.name).Some? && ParseName(entry.name).value.0 == version
  }

  /** What is wrong with the i-th entry, given the ones before it. */
  function Offence(entries: seq<Entry>, i: nat): Option<LoadError>
    requires i < |entries|
  {
    var entry := entries[i];
    if entry.isDir then None
    else match ParseName(entry.name)
      case None => Some(InvalidFileName(entry.name))
      case Some((version, _)) =>
        if exists k :: 0 <= k < i && IsFileOf(entries[k], version) then Some(DuplicateVersion(version))
        else if entry.content.None? then Some(Unreadable(entry.name))
        else None
  }

  /** Every file is well named and readable and no two have one version; directories are ignored. */
  ghost predicate Acceptable(entries: seq<Entry>) {
    && (forall k :: 0 <= k < |entries| && !entries[k].isDir ==>
          ParseName(entries[k].name).Some? && entries[k].content.Some?)
    && (forall j, k, v :: 0 <= j < k < |entries| && IsFileOf(entries[j], v) ==> !IsFileOf(entries[k], v))
  }

  lemma NoOffence(entries: seq<Entry>)
    ensures (forall i :: 0 <= i < |entries| ==> Offence(entries, i) == None) <==> Acceptable(entries)
  {
    forall i | 0 <= i < |entries| {
      OffenceMeans(entries, i);
    }
  }

  lemma OffenceMeans(entries: seq<Entry>, i: nat)
    requires i < |entries|
    ensures Offence(entries, i) == None
       <==> || entries[i].isDir
            || (&& ParseName(entries[i].name).Some? && entries[i].content.Some?
                && forall k, v :: 0 <= k < i && IsFileOf(entries[i], v) ==> !IsFileOf(entries[k], v))
  {
    if !entries[i].isDir && ParseName(entries[i].name).Some? {
      var version := ParseName(entries[i].name).value.0;
      assert IsFileOf(entries[i], version);
      assert forall v :: IsFileOf(entries[i], v) ==> v == version;
    }
  }

  /** One migration for every readable, well-named file, in directory order. */
  function Files(entries: seq<Entry>, sha: string -> string): seq<Migration> {
    if entries == [] then []
    else
      var entry := entries[|entries| - 1];
      var before := Files(entries[..|entries| - 1], sha);
      if entry.isDir || ParseName(entry.name).None? || entry.content.None? then before
      else
        var (version, name) := ParseName(entry.name).value;
        before + [Migration(version, name, sha(entry.content.value), entry.content.value)]
  }

  /** Strictly ascending versions: sorted and without duplicates. */
  ghost predicate Ascending(ms: seq<Migration>) {
    forall i, j :: 0 <= i < j < |ms| ==> ms[i].version < ms[j].version
  }

  function Insert(m: Migration, ms: seq<Migration>): (r: seq<Migration>)
    ensures multiset(r) == multiset{m} + multiset(ms)
  {
    if ms == [] || m.version <= ms[0].version then [m] + ms
    else
      assert ms == [ms[0]] + ms[1..];
      [ms[0]] + Insert(m, ms[1..])
  }

  function SortByVersion(ms: seq<Migration>): (r: seq<Migration>)
    ensures multiset(r) == multiset(ms)
  {
    if ms == [] then []
    else
      assert ms == [ms[0]] + ms[1..];
      Insert(ms[0], SortByVersion(ms[1..]))
  }

  lemma ConsAscends(m: Migration, ms: seq<Migration>)
    requires Ascending(ms) && forall x :: x in ms ==> m.version < x.version
    ensures Ascending([m] + ms)
  {
    assert forall i :: 0 <= i < |ms| ==> ms[i] in ms;
  }

  lemma InsertMembers(m: Migration, ms: seq<Migration>, x: Migration)
    requires x in Insert(m, ms)
    ensures x == m || x in ms
  {
    assert x in multiset(Insert(m, ms));
  }

  lemma {:induction false} InsertAscends(m: Migration, ms: seq<Migration>)
    requires Ascending(ms) && forall x :: x in ms ==> x.version != m.version
    ensures Ascending(Insert(m, ms))
  {
    if ms != [] && ms[0].version < m.version {
      InsertAscends(m, ms[1..]);
      forall x | x in Insert(m, ms[1..]) ensures ms[0].version < x.version {
        InsertMembers(m, ms[1..], x);
      }
      ConsAscends(ms[0], Insert(m, ms[1..]));
    } else {
      assert forall i :: 0 < i < |ms| ==> ms[0].version < ms[i].version;
      forall x | x in ms ensures m.version < x.version {
        assert ms[0] in ms;
      }
      ConsAscends(m, ms);
    }
  }

  ghost predicate DistinctVersions(ms: seq<Migration>) {
    forall i, j :: 0 <= i < j < |ms| ==> ms[i].version != ms[j].version
  }

  lemma {:induction false} SortAscends(ms: seq<Migration>)
    requires DistinctVersions(ms)
    ensures Ascending(SortByVersion(ms))
  {
    if ms != [] {
      SortAscends(ms[1..]);
      forall x | x in SortByVersion(ms[1..]) ensures x.version != ms[0].version {
        assert x in multiset(ms[1..]);
      }
      InsertAscends(ms[0], SortByVersion(ms[1..]));
    }
  }

  lemma {:induction false} FilesVersions(entries: seq<Entry>, sha: string -> string)
    requires forall i :: 0 <= i < |entries| ==> Offence(entries, i) == None
    ensures DistinctVersions(Files(entries, sha))
    ensures forall m :: m in Files(entries, sha) ==> exists k :: 0 <= k < |entries| && IsFileOf(entries[k], m.version)
    ensures forall k, v :: 0 <= k < |entries| && IsFileOf(entries[k], v) ==>
              exists m :: m in Files(entries, sha) && m.version == v
  {
    if entries != [] {
      var n := |entries| - 1;
      var before := entries[..n];
      forall i | 0 <= i < n ensures Offence(before, i) == None {
        assert Offence(entries, i) == None;
        assert forall k :: 0 <= k < i ==> before[k] == entries[k];
      }
      FilesVersions(before, sha);
      assert Offence(entries, n) == None;
      forall m | m in Files(entries, sha)
        ensures exists k :: 0 <= k < |entries| && IsFileOf(entries[k], m.version)
      {
        if m in Files(before, sha) {
          var k :| 0 <= k < |before| && IsFileOf(before[k], m.version);
          assert IsFileOf(entries[k], m.version);
        } else {
          assert IsFileOf(entries[n], m.version);
        }
      }
      forall k, v | 0 <= k < |entries| && IsFileOf(entries[k], v)
        ensures exists m :: m in Files(entries, sha) && m.version == v
      {
        if k < n {
          assert IsFileOf(before[k], v);
          var m :| m in Files(before, sha) && m.version == v;
          assert m in Files(entries, sha);
        } else {
          var m := Files(entries, sha)[|Files(entries, sha)| - 1];
          assert m in Files(entries, sha);
        }
      }
      var fs := Files(entries, sha);
      forall i, j | 0 <= i < j < |fs| ensures fs[i].version != fs[j].version {
        if j == |Files(before, sha)| {
          assert fs[i] in Files(before, sha);
          var k :| 0 <= k < |before| && IsFileOf(before[k], fs[i].version);
          assert IsFileOf(entries[k], fs[i].version);
        }
      }
    }
  }

  /** This migration is what the entry holds: its version and name, its content, and the checksum of
      that content. */
  predicate FromEntry(m: Migration, entry: Entry, sha: string -> string) {
    && !entry.isDir && entry.content.Some? && ParseName(entry.name) == Some((m.version, m.name))
    && m.statements == entry.content.value && m.checksum == sha(entry.content.value)
  }

  lemma {:induction false} FilesAreEntries(entries: seq<Entry>, sha: string -> string, m: Migration)
    ensures m in Files(entries, sha) <==> exists k :: 0 <= k < |entries| && FromEntry(m, entries[k], sha)
  {
    if entries != [] {
      var n := |entries| - 1;
      FilesAreEntries(entries[..n], sha, m);
      assert forall k :: 0 <= k < n ==> entries[..n][k] == entries[k];
      assert m in Files(entries, sha) <==> m in Files(entries[..n], sha) || FromEntry(m, entries[n], sha);
    }
  }

  /** Every file is loaded as it is, and nothing else is. */
  ghost predicate LoadedFrom(ms: seq<Migration>, entries: seq<Entry>, sha: string -> string) {
    && (forall k :: 0 <= k < |entries| && !entries[k].isDir ==> exists m :: m in ms && FromEntry(m, entries[k], sha))
    && (forall m :: m in ms ==> exists k :: 0 <= k < |entries| && FromEntry(m, entries[k], sha))
  }

  lemma SortedFilesAreLoaded(entries: seq<Entry>, sha: string -> string)
    requires forall i :: 0 <= i < |entries| ==> Offence(entries, i) == None
    ensures LoadedFrom(SortByVersion(Files(entries, sha)), entries, sha)
  {
    var files := Files(entries, sha);
    var ms := SortByVersion(files);
    forall m ensures m in ms <==> exists k :: 0 <= k < |entries| && FromEntry(m, entries[k], sha) {
      assert m in ms <==> m in multiset(ms);
      FilesAreEntries(entries, sha, m);
    }
    forall k | 0 <= k < |entries| && !entries[k].isDir ensures exists m :: m in ms && FromEntry(m, entries[k], sha) {
      var content, parsed := entries[k].content, ParseName(entries[k].name);
      assert Offence(entries, k) == None;
      var m := Migration(parsed.value.0, parsed.value.1, sha(content.value), content.value);
      assert FromEntry(m, entries[k], sha);
    }
  }

  /** The sorted files, when every entry is acceptable; otherwise what is wrong with the
      first entry that is not. */
  method Load(entries: seq<Entry>, sha: string -> string) returns (r: Loaded)
    ensures r.Loaded? <==> forall i :: 0 <= i < |entries| ==> Offence(entries, i) == None
    ensures r.Loaded? <==> Acceptable(entries)
    ensures r.Loaded? ==> r.migrations == SortByVersion(Files(entries, sha)) && Ascending(r.migrations)
    ensures r.Loaded? ==> LoadedFrom(r.migrations, entries, sha)
    ensures r.NotLoaded? ==> exists i :: 0 <= i < |entries| && Offence(entries, i) == Some(r.error)
                               && forall k :: 0 <= k < i ==> Offence(entries, k) == None
  {
    NoOffence(entries);
    var migrations: seq<Migration> := [];
    var seen: map<int, string> := map[];
    for i := 0 to |entries|
      invariant migrations == Files(entries[..i], sha)
      invariant forall k :: 0 <= k < i ==> Offence(entries, k) == None
      invariant forall v :: v in seen <==> exists k :: 0 <= k < i && IsFileOf(entries[k], v)
    {
      assert entries[..i + 1][..i] == entries[..i];
      var entry := entries[i];
      if entry.isDir {
        continue;
      }
      var matched := ParseName(entry.name);
      if matched.None? {
        assert Offence(entries, i) == Some(InvalidFileName(entry.name));
        return NotLoaded(InvalidFileName(entry.name));
      }
      var (version, name) := matched.value;
      if version in seen {
        assert Offence(entries, i) == Some(DuplicateVersion(version));
        return NotLoaded(DuplicateVersion(version));
      }
      seen := seen[version := entry.name];
      assert IsFileOf(entries[i], version);
      if entry.content.None? {
        assert Offence(entries, i) == Some(Unreadable(entry.name));
        return NotLoaded(Unreadable(entry.name));
      }
      migrations := migrations + [Migration(version, name, sha(entry.content.value), entry.content.value)];
    }
    assert entries[..|entries|] == entries;
    SortedFilesAscend(entries, sha);
    SortedFilesAreLoaded(entries, sha);
    return Loaded(SortByVersion(migrations));
  }

  // ---------------------------------------------------------------- one run

  /** How the transaction of one migration goes: each statement may fail, and the commit may
      take effect without saying so. */
  datatype Attempt = Attempt(begins: bool, executes: bool, inserts: bool, commit: Fate) {
    function Result(): Fate { if begins && executes && inserts then commit else Fails }
  }

  type Attempts = int -> Attempt

  /** How the preparation of a run goes. */
  datatype Session = Session(connected: bool, locked: bool, created: bool, listed: bool) {
    predicate Ready() { connected && locked && created && listed }
  }

  datatype Outcome =
    | Success
    | InvalidTableName
    | Rejected(error: LoadError)
    | Unavailable
    | ChecksumMismatch(version: int)
    | ApplyFailed(version: int)
    | MissingFile(version: int)

  ghost predicate UniqueRows(rows: seq<Record>) {
    forall i, j :: 0 <= i < j < |rows| ==> rows[i].version != rows[j].version
  }

  predicate Recorded(rows: seq<Record>, version: int) {
    exists i :: 0 <= i < |rows| && rows[i].version == version
  }

  predicate RecordedAs(rows: seq<Record>, version: int, checksum: string) {
    exists i :: 0 <= i < |rows| && rows[i].version == version && rows[i].checksum == checksum
  }

  predicate HasFile(ms: seq<Migration>, version: int) {
    exists i :: 0 <= i < |ms| && ms[i].version == version
  }

  predicate HasFileAs(ms: seq<Migration>, version: int, checksum: string) {
    exists i :: 0 <= i < |ms| && ms[i].version == version && ms[i].checksum == checksum
  }

  /** The files with no record. */
  function Pending(rows: seq<Record>, ms: seq<Migration>): seq<Migration> {
    if ms == [] then []
    else
      var m := ms[|ms| - 1];
      Pending(rows, ms[..|ms| - 1]) + (if Recorded(rows, m.version) then [] else [m])
  }

  /** A run cannot get past this file. */
  predicate Stops(rows: seq<Record>, attempts: Attempts, m: Migration) {
    if Recorded(rows, m.version) then !RecordedAs(rows, m.version, m.checksum)
    else attempts(m.version).Result() != Works
  }

  /** The first file from the i-th on that a run cannot get past, or the end. */
  function StopFrom(rows: seq<Record>, ms: seq<Migration>, attempts: Attempts, i: nat): (stop: nat)
    requires i <= |ms|
    ensures i <= stop <= |ms|
    ensures forall k :: i <= k < stop ==> !Stops(rows, attempts, ms[k])
    ensures stop < |ms| ==> Stops(rows, attempts, ms[stop])
    decreases |ms| - i
  {
    if i == |ms| || Stops(rows, attempts, ms[i]) then i else StopFrom(rows, ms, attempts, i + 1)
  }

  /** What a run that reaches its loop commits, in order. */
  function Added(rows: seq<Record>, ms: seq<Migration>, attempts: Attempts): seq<Migration> {
    var stop := StopFrom(rows, ms, attempts, 0);
    Pending(rows, ms[..stop])
    + (if stop < |ms| && !Recorded(rows, ms[stop].version) && attempts(ms[stop].version).Result().Lands()
       then [ms[stop]] else [])
  }

  /** How it may end. Which of several records without a file is named is not determined. */
  predicate Ends(rows: seq<Record>, ms: seq<Migration>, attempts: Attempts, outcome: Outcome) {
    var stop := StopFrom(rows, ms, attempts, 0);
    if stop < |ms| then
      outcome == if Recorded(rows, ms[stop].version) then ChecksumMismatch(ms[stop].version)
                 else ApplyFailed(ms[stop].version)
    else match outcome
      case Success => forall r :: r in rows ==> HasFile(ms, r.version)
      case MissingFile(v) => Recorded(rows, v) && !HasFile(ms, v)
      case _ => false
  }

  predicate ValidTableName(name: string) {
    |name| > 0 && 'a' <= name[0] <= 'z' && forall i :: 0 <= i < |name| ==> NameChar(name[i])
  }

  lemma {:induction false} PendingMembers(rows: seq<Record>, ms: seq<Migration>)
    ensures forall m :: m in Pending(rows, ms) <==> m in ms && !Recorded(rows, m.version)
    ensures Ascending(ms) ==> Ascending(Pending(rows, ms))
  {
    if ms != [] {
      var front, last := ms[..|ms| - 1], ms[|ms| - 1];
      PendingMembers(rows, front);
      assert ms == front + [last];
      if Ascending(ms) {
        forall m | m in Pending(rows, front) ensures m.version < last.version {
          assert m in front;
        }
        SnocAscends(Pending(rows, front), last);
      }
    }
  }

  lemma SnocAscends(ms: seq<Migration>, last: Migration)
    requires Ascending(ms) && forall m :: m in ms ==> m.version < last.version
    ensures Ascending(ms + [last])
  {
  }

  lemma PendingSnoc(rows: seq<Record>, ms: seq<Migration>, i: nat)
    requires i < |ms|
    ensures Pending(rows, ms[..i + 1])
         == Pending(rows, ms[..i]) + (if Recorded(rows, ms[i].version) then [] else [ms[i]])
  {
    assert ms[..i + 1][..i] == ms[..i];
  }

  lemma StopIs(rows: seq<Record>, ms: seq<Migration>, attempts: Attempts, i: nat)
    requires i <= |ms| && (i < |ms| ==> Stops(rows, attempts, ms[i]))
    requires forall k :: 0 <= k < i ==> !Stops(rows, attempts, ms[k])
    ensures StopFrom(rows, ms, attempts, 0) == i
  {
  }

  lemma RecordsOfAppend(a: seq<Migration>, b: seq<Migration>)
    ensures RecordsOf(a + b) == RecordsOf(a) + RecordsOf(b)
  {
  }

  lemma HasFileSnoc(ms: seq<Migration>, i: nat, version: int)
    requires i < |ms|
    ensures HasFile(ms[..i + 1], version) <==> HasFile(ms[..i], version) || version == ms[i].version
  {
  }

  /** A pending file is still unrecorded when its turn comes. */
  lemma StillPending(rows: seq<Record>, ms: seq<Migration>, i: nat)
    requires i < |ms| && Ascending(ms) && !Recorded(rows, ms[i].version)
    ensures !Recorded(rows + RecordsOf(Pending(rows, ms[..i])), ms[i].version)
  {
    var earlier := Pending(rows, ms[..i]);
    PendingMembers(rows, ms[..i]);
    forall k | 0 <= k < |earlier| ensures earlier[k].version < ms[i].version {
      assert earlier[k] in ms[..i];
    }
  }

  class Database {
    /** The bookkeeping table, in the order its rows were committed. */
    var rows: seq<Record>
    /** The migrations whose statements have been committed, in order. */
    var effects: seq<Migration>

    constructor ()
      ensures rows == [] && effects == []
    {
      rows, effects := [], [];
    }

    /** One transaction: the statements of the file and its bookkeeping row, or neither. */
    method Apply(m: Migration, attempt: Attempt) returns (ok: bool)
      requires !Recorded(rows, m.version)
      modifies this
      ensures ok <==> attempt.Result() == Works
      ensures if attempt.Result().Lands() then rows == old(rows) + [RecordOf(m)] && effects == old(effects) + [m]
              else rows == old(rows) && effects == old(effects)
    {
      if !attempt.begins {
        return false;
      }
      var written, recorded := effects, rows;
      if !attempt.executes {
        return false;
      }
      written := written + [m];
      if !attempt.inserts {
        return false;
      }
      recorded := recorded + [RecordOf(m)];
      if attempt.commit.Lands() {
        effects, rows := written, recorded;
      }
      return attempt.commit == Works;
    }

    /** Applies every file with no record, in version order. */
    method Up(tableName: string, entries: seq<Entry>, sha: string -> string, session: Session, attempts: Attempts)
      returns (outcome: Outcome)
      requires UniqueRows(rows)
      modifies this
      ensures outcome == InvalidTableName <==> !ValidTableName(tableName)
      ensures outcome.Rejected? <==>
                ValidTableName(tableName) && exists i :: 0 <= i < |entries| && Offence(entries, i) != None
      ensures outcome == Unavailable <==> outcome != InvalidTableName && !outcome.Rejected? && !session.Ready()
      ensures outcome == InvalidTableName || outcome.Rejected? || outcome == Unavailable ==>
                rows == old(rows) && effects == old(effects)
      ensures outcome == InvalidTableName || outcome.Rejected? || outcome == Unavailable
              || (var ms := SortByVersion(Files(entries, sha));
                  && Ascending(ms)
                  && Extended(old(rows), old(effects), rows, effects, Added(old(rows), ms, attempts))
                  && Ends(old(rows), ms, attempts, outcome))
      ensures outcome == Success ==>
                forall k :: 0 <= k < |entries| && !entries[k].isDir ==> RecordsContent(rows, entries[k], sha)
    {
      if !ValidTableName(tableName) {
        return InvalidTableName;
      }
      var loaded := Load(entries, sha);
      if loaded.NotLoaded? {
        return Rejected(loaded.error);
      }
      if !session.Ready() {
        return Unavailable;
      }
      outcome := Walk(loaded.migrations, attempts);
      if outcome == Success {
        SuccessRecordsContents(old(rows), entries, sha, attempts, loaded.migrations);
      }
    }

    /** The records by version. */
    method Applied() returns (byVersion: map<int, Record>)
      requires UniqueRows(rows)
      ensures forall v :: v in byVersion <==> Recorded(rows, v)
      ensures forall v :: v in byVersion ==> byVersion[v].version == v && byVersion[v] in rows
    {
      byVersion := map[];
      for i := 0 to |rows|
        invariant forall k :: 0 <= k < i ==> rows[k].version in byVersion
        invariant forall v :: v in byVersion ==> byVersion[v].version == v && byVersion[v] in rows
      {
        byVersion := byVersion[rows[i].version := rows[i]];
      }
    }

    method Walk(migrations: seq<Migration>, attempts: Attempts) returns (outcome: Outcome)
      requires UniqueRows(rows) && Ascending(migrations)
      modifies this
      ensures Extended(old(rows), old(effects), rows, effects, Added(old(rows), migrations, attempts))
      ensures Ends(old(rows), migrations, attempts, outcome)
    {
      ghost var start := Walked(rows, effects, migrations, attempts);
      var byVersion := Applied();
      StartsAt(start, byVersion);
      for i := 0 to |migrations|
        invariant At(start, rows, effects, byVersion, i)
      {
        var m := migrations[i];
        if m.version in byVersion {
          var record := byVersion[m.version];
          if record.checksum != m.checksum {
            MismatchEnds(start, rows, effects, byVersion, i);
            return ChecksumMismatch(m.version);
          }
          SkipAdvances(start, rows, effects, byVersion, i);
          byVersion := byVersion - {m.version};
          continue;
        }
        PendingMayBeApplied(start, rows, effects, byVersion, i);
        ghost var rowsBefore, effectsBefore := rows, effects;
        var ok := Apply(m, attempts(m.version));
        if !ok {
          FailureEnds(start, rowsBefore, effectsBefore, byVersion, i);
          return ApplyFailed(m.version);
        }
        ApplyAdvances(start, rowsBefore, effectsBefore, byVersion, i);
      }
      LoopEnds(start, rows, effects, byVersion);
      if byVersion != map[] {
        var version :| version in byVersion;
        return MissingFile(version);
      }
      return Success;
    }
  }

  /** What a walk over the files starts from. */
  datatype Walked = Walked(rows: seq<Record>, effects: seq<Migration>, files: seq<Migration>, attempts: Attempts)

  /** A walk has passed the first `i` files: it has added the pending ones among them and
      deleted the others from its map. */
  ghost predicate At(start: Walked, rows: seq<Record>, effects: seq<Migration>, byVersion: map<int, Record>, i: nat) {
    && i <= |start.files| && UniqueRows(start.rows) && Ascending(start.files)
    && PassedBefore(start.rows, start.files, start.attempts, i)
    && Extended(start.rows, start.effects, rows, effects, Pending(start.rows, start.files[..i]))
    && LeftOver(byVersion, start.rows, start.files, i)
  }

  /** The walk is over: rows and effects have grown by what it adds, and this is how it ends. */
  ghost predicate Over(start: Walked, rows: seq<Record>, effects: seq<Migration>, outcome: Outcome) {
    && Extended(start.rows, start.effects, rows, effects, Added(start.rows, start.files, start.attempts))
    && Ends(start.rows, start.files, start.attempts, outcome)
  }

  lemma StartsAt(start: Walked, byVersion: map<int, Record>)
    requires UniqueRows(start.rows) && Ascending(start.files)
    requires forall v :: v in byVersion <==> Recorded(start.rows, v)
    requires forall v :: v in byVersion ==> byVersion[v].version == v && byVersion[v] in start.rows
    ensures At(start, start.rows, start.effects, byVersion, 0)
  {
  }

  lemma SkipAdvances(start: Walked, rows: seq<Record>, effects: seq<Migration>, byVersion: map<int, Record>, i: nat)
    requires i < |start.files| && At(start, rows, effects, byVersion, i) && start.files[i].version in byVersion
    requires byVersion[start.files[i].version].checksum == start.files[i].checksum
    ensures At(start, rows, effects, byVersion - {start.files[i].version}, i + 1)
  {
    PendingSnoc(start.rows, start.files, i);
    LeftOverStep(byVersion, start.rows, start.files, i);
  }

  lemma PendingMayBeApplied(start: Walked, rows: seq<Record>, effects: seq<Migration>,
                            byVersion: map<int, Record>, i: nat)
    requires i < |start.files| && At(start, rows, effects, byVersion, i) && start.files[i].version !in byVersion
    ensures !Recorded(rows, start.files[i].version)
  {
    LeftOverStep(byVersion, start.rows, start.files, i);
  }

  lemma ApplyAdvances(start: Walked, rows: seq<Record>, effects: seq<Migration>, byVersion: map<int, Record>, i: nat)
    requires i < |start.files| && At(start, rows, effects, byVersion, i) && start.files[i].version !in byVersion
    requires start.attempts(start.files[i].version).Result() == Works
    ensures At(start, rows + [RecordOf(start.files[i])], effects + [start.files[i]], byVersion, i + 1)
  {
    var m := start.files[i];
    PendingSnoc(start.rows, start.files, i);
    LeftOverStep(byVersion, start.rows, start.files, i);
    ExtendedMore(start.rows, start.effects, rows, effects, Pending(start.rows, start.files[..i]), m);
    assert byVersion - {m.version} == byVersion;
  }

  lemma MismatchEnds(start: Walked, rows: seq<Record>, effects: seq<Migration>, byVersion: map<int, Record>, i: nat)
    requires i < |start.files| && At(start, rows, effects, byVersion, i) && start.files[i].version in byVersion
    requires byVersion[start.files[i].version].checksum != start.files[i].checksum
    ensures Over(start, rows, effects, ChecksumMismatch(start.files[i].version))
  {
    LeftOverStep(byVersion, start.rows, start.files, i);
    StoppedAt(start.rows, start.effects, rows, effects, start.files, start.attempts, i);
  }

  lemma FailureEnds(start: Walked, rows: seq<Record>, effects: seq<Migration>, byVersion: map<int, Record>, i: nat)
    requires i < |start.files| && At(start, rows, effects, byVersion, i) && start.files[i].version !in byVersion
    requires start.attempts(start.files[i].version).Result() != Works
    ensures var m := start.files[i];
            if start.attempts(m.version).Result().Lands()
            then Over(start, rows + [RecordOf(m)], effects + [m], ApplyFailed(m.version))
            else Over(start, rows, effects, ApplyFailed(m.version))
  {
    LeftOverStep(byVersion, start.rows, start.files, i);
    StoppedAt(start.rows, start.effects, rows, effects, start.files, start.attempts, i);
  }

  lemma LoopEnds(start: Walked, rows: seq<Record>, effects: seq<Migration>, byVersion: map<int, Record>)
    requires At(start, rows, effects, byVersion, |start.files|)
    ensures byVersion == map[] ==> Over(start, rows, effects, Success)
    ensures forall v :: v in byVersion ==> Over(start, rows, effects, MissingFile(v))
    ensures byVersion == map[] || exists v :: v in byVersion
  {
    assert (forall v :: v !in byVersion) ==> byVersion == map[];
    WentThrough(byVersion, start.rows, start.files, start.attempts);
  }

  /** Rows and effects have grown by exactly these migrations, in this order. */
  ghost predicate Extended(rows0: seq<Record>, effects0: seq<Migration>, rows: seq<Record>, effects: seq<Migration>,
                           added: seq<Migration>) {
    rows == rows0 + RecordsOf(added) && effects == effects0 + added
  }

  lemma ExtendedMore(rows0: seq<Record>, effects0: seq<Migration>, rows: seq<Record>, effects: seq<Migration>,
                     added: seq<Migration>, m: Migration)
    requires Extended(rows0, effects0, rows, effects, added)
    ensures Extended(rows0, effects0, rows + [RecordOf(m)], effects + [m], added + [m])
  {
  }

  ghost predicate PassedBefore(rows: seq<Record>, ms: seq<Migration>, attempts: Attempts, i: nat)
    requires i <= |ms|
  {
    forall k :: 0 <= k < i ==> !Stops(rows, attempts, ms[k])
  }

  /** The map a run deletes from: the records whose file it has not reached yet. */
  ghost predicate LeftOver(byVersion: map<int, Record>, rows: seq<Record>, ms: seq<Migration>, i: nat)
    requires i <= |ms|
  {
    && (forall v :: v in byVersion ==> byVersion[v].version == v && byVersion[v] in rows)
    && (forall v :: v in byVersion <==> Recorded(rows, v) && !HasFile(ms[..i], v))
  }

  lemma LeftOverStep(byVersion: map<int, Record>, rows: seq<Record>, ms: seq<Migration>, i: nat)
    requires i < |ms| && Ascending(ms) && UniqueRows(rows) && LeftOver(byVersion, rows, ms, i)
    ensures ms[i].version in byVersion <==> Recorded(rows, ms[i].version)
    ensures ms[i].version in byVersion ==>
              (RecordedAs(rows, ms[i].version, ms[i].checksum) <==> byVersion[ms[i].version].checksum == ms[i].checksum)
    ensures LeftOver(byVersion - {ms[i].version}, rows, ms, i + 1)
    ensures ms[i].version !in byVersion ==> !Recorded(rows + RecordsOf(Pending(rows, ms[..i])), ms[i].version)
  {
    NoFileYet(ms, i);
    var m := ms[i];
    forall v ensures HasFile(ms[..i + 1], v) <==> HasFile(ms[..i], v) || v == m.version {
      HasFileSnoc(ms, i, v);
    }
    if m.version in byVersion {
      OneRow(rows, byVersion[m.version], m.checksum);
    } else {
      StillPending(rows, ms, i);
      assert byVersion - {m.version} == byVersion;
    }
  }

  /** A run that stops at the i-th file keeps what it had, and that file too if its commit
      landed without saying so. */
  lemma StoppedAt(rows0: seq<Record>, effects0: seq<Migration>, rows: seq<Record>, effects: seq<Migration>,
                  ms: seq<Migration>, attempts: Attempts, i: nat)
    requires i < |ms| && PassedBefore(rows0, ms, attempts, i) && Stops(rows0, attempts, ms[i])
    requires Extended(rows0, effects0, rows, effects, Pending(rows0, ms[..i]))
    ensures if !Recorded(rows0, ms[i].version) && attempts(ms[i].version).Result().Lands()
            then Extended(rows0, effects0, rows + [RecordOf(ms[i])], effects + [ms[i]], Added(rows0, ms, attempts))
            else Extended(rows0, effects0, rows, effects, Added(rows0, ms, attempts))
    ensures Ends(rows0, ms, attempts, if Recorded(rows0, ms[i].version) then ChecksumMismatch(ms[i].version)
                                      else ApplyFailed(ms[i].version))
  {
  }

  lemma WentThrough(byVersion: map<int, Record>, rows: seq<Record>, ms: seq<Migration>, attempts: Attempts)
    requires PassedBefore(rows, ms, attempts, |ms|) && LeftOver(byVersion, rows, ms, |ms|)
    ensures Added(rows, ms, attempts) == Pending(rows, ms[..|ms|])
    ensures byVersion == map[] ==> Ends(rows, ms, attempts, Success)
    ensures forall v :: v in byVersion ==> Ends(rows, ms, attempts, MissingFile(v))
  {
    StopIs(rows, ms, attempts, |ms|);
    assert ms[..|ms|] == ms;
    assert Added(rows, ms, attempts) == Pending(rows, ms) + [];
    forall i | 0 <= i < |rows| && byVersion == map[] ensures HasFile(ms, rows[i].version) {
      assert Recorded(rows, rows[i].version) && rows[i].version !in byVersion;
    }
  }

  lemma NoFileYet(ms: seq<Migration>, i: nat)
    requires i < |ms| && Ascending(ms)
    ensures !HasFile(ms[..i], ms[i].version)
  {
  }

  lemma OneRow(rows: seq<Record>, record: Record, checksum: string)
    requires UniqueRows(rows) && record in rows
    ensures RecordedAs(rows, record.version, checksum) <==> record.checksum == checksum
    ensures Recorded(rows, record.version)
  {
  }

  // ---------------------------------------------------------------- what a run promises

  /** Old rows are kept; every outcome says exactly which files were added. */
  lemma OutcomeContract(rows: seq<Record>, ms: seq<Migration>, attempts: Attempts, outcome: Outcome)
    requires UniqueRows(rows) && Ascending(ms) && Ends(rows, ms, attempts, outcome)
    ensures var added := Added(rows, ms, attempts);
            && Ascending(added)
            && (forall m :: m in added ==> m in ms && !Recorded(rows, m.version))
            && UniqueRows(rows + RecordsOf(added))
            && match outcome
               case Success =>
                 forall v, c :: RecordedAs(rows + RecordsOf(added), v, c) <==> HasFileAs(ms, v, c)
               case MissingFile(v) =>
                 && Recorded(rows, v) && !HasFile(ms, v)
                 && (forall m :: m in added <==> (m in ms && !Recorded(rows, m.version)))
               case ChecksumMismatch(v) =>
                 && (exists m :: m in ms && m.version == v && Recorded(rows, v) && !RecordedAs(rows, v, m.checksum))
                 && (forall m :: m in added <==> (m in ms && !Recorded(rows, m.version) && m.version < v))
               case ApplyFailed(v) =>
                 && attempts(v).Result() != Works
                 && (forall m :: m in added <==>
                       (m in ms && !Recorded(rows, m.version)
                        && (m.version < v || (m.version == v && attempts(v).Result().Lands()))))
               case _ => false
  {
    var stop := StopFrom(rows, ms, attempts, 0);
    var added := Added(rows, ms, attempts);
    PendingMembers(rows, ms[..stop]);
    BelowStop(ms, stop);
    AddedIsNew(rows, added);
    if stop == |ms| {
      assert ms[..stop] == ms && added == Pending(rows, ms);
      if outcome == Success {
        forall v, c ensures RecordedAs(rows + RecordsOf(added), v, c) <==> HasFileAs(ms, v, c) {
          SuccessPairs(rows, ms, attempts, v, c);
        }
      }
    } else {
      assert ms[stop] in ms;
    }
  }

  lemma BelowStop(ms: seq<Migration>, stop: nat)
    requires Ascending(ms) && stop <= |ms|
    ensures forall m :: m in ms[..stop] <==> m in ms && (stop < |ms| ==> m.version < ms[stop].version)
    ensures stop < |ms| ==> forall m :: m in ms && m.version == ms[stop].version <==> m == ms[stop]
  {
  }

  lemma AddedIsNew(rows: seq<Record>, added: seq<Migration>)
    requires UniqueRows(rows) && Ascending(added)
    requires forall m :: m in added ==> !Recorded(rows, m.version)
    ensures UniqueRows(rows + RecordsOf(added))
  {
  }

  /** After a successful run a record has its file, with the same checksum. */
  lemma RecordHasFile(rows: seq<Record>, ms: seq<Migration>, attempts: Attempts, record: Record)
    requires UniqueRows(rows) && Ends(rows, ms, attempts, Success)
    requires record in rows + RecordsOf(Pending(rows, ms))
    ensures HasFileAs(ms, record.version, record.checksum)
  {
    var added := Pending(rows, ms);
    PendingMembers(rows, ms);
    if record in rows {
      assert HasFile(ms, record.version);
      var k :| 0 <= k < |ms| && ms[k].version == record.version;
      var i :| 0 <= i < |rows| && rows[i] == record;
      assert Recorded(rows, record.version) && !Stops(rows, attempts, ms[k]);
    } else {
      var i :| 0 <= i < |added| && RecordsOf(added)[i] == record;
      assert added[i] in added;
    }
  }

  lemma FileHasRecord(rows: seq<Record>, ms: seq<Migration>, attempts: Attempts, k: nat)
    requires Ends(rows, ms, attempts, Success) && k < |ms|
    ensures RecordedAs(rows + RecordsOf(Pending(rows, ms)), ms[k].version, ms[k].checksum)
  {
    var added := Pending(rows, ms);
    var all := rows + RecordsOf(added);
    PendingMembers(rows, ms);
    assert !Stops(rows, attempts, ms[k]);
    if Recorded(rows, ms[k].version) {
      var i :| 0 <= i < |rows| && rows[i].version == ms[k].version && rows[i].checksum == ms[k].checksum;
      assert all[i] == rows[i];
    } else {
      assert ms[k] in added;
      var i :| 0 <= i < |added| && added[i] == ms[k];
      assert all[|rows| + i] == RecordOf(ms[k]);
    }
  }

  lemma SuccessPairs(rows: seq<Record>, ms: seq<Migration>, attempts: Attempts, v: int, c: string)
    requires UniqueRows(rows) && Ascending(ms) && Ends(rows, ms, attempts, Success)
    ensures RecordedAs(rows + RecordsOf(Pending(rows, ms)), v, c) <==> HasFileAs(ms, v, c)
  {
    var all := rows + RecordsOf(Pending(rows, ms));
    if RecordedAs(all, v, c) {
      var i :| 0 <= i < |all| && all[i].version == v && all[i].checksum == c;
      RecordHasFile(rows, ms, attempts, all[i]);
    }
    if HasFileAs(ms, v, c) {
      var k :| 0 <= k < |ms| && ms[k].version == v && ms[k].checksum == c;
      FileHasRecord(rows, ms, attempts, k);
    }
  }

  /** A run succeeds exactly when no applied file was edited, every pending file applies, and
      every record has its file. */
  lemma SuccessExactlyWhen(rows: seq<Record>, ms: seq<Migration>, attempts: Attempts)
    ensures Ends(rows, ms, attempts, Success)
       <==> && (forall m :: m in ms && Recorded(rows, m.version) ==> RecordedAs(rows, m.version, m.checksum))
            && (forall m :: m in ms && !Recorded(rows, m.version) ==> attempts(m.version).Result() == Works)
            && (forall r :: r in rows ==> HasFile(ms, r.version))
  {
  }

  /** The table has this file's version with the checksum of its content. */
  predicate RecordsContent(rows: seq<Record>, entry: Entry, sha: string -> string) {
    entry.content.Some? && ParseName(entry.name).Some?
    && RecordedAs(rows, ParseName(entry.name).value.0, sha(entry.content.value))
  }

  lemma SuccessRecordsContents(rows: seq<Record>, entries: seq<Entry>, sha: string -> string, attempts: Attempts,
                               ms: seq<Migration>)
    requires UniqueRows(rows) && Ascending(ms) && LoadedFrom(ms, entries, sha) && Ends(rows, ms, attempts, Success)
    ensures forall k :: 0 <= k < |entries| && !entries[k].isDir ==>
              RecordsContent(rows + RecordsOf(Added(rows, ms, attempts)), entries[k], sha)
  {
    OutcomeContract(rows, ms, attempts, Success);
    forall k | 0 <= k < |entries| && !entries[k].isDir
      ensures RecordsContent(rows + RecordsOf(Added(rows, ms, attempts)), entries[k], sha)
    {
      var m :| m in ms && FromEntry(m, entries[k], sha);
      assert HasFileAs(ms, m.version, m.checksum);
    }
  }

  ghost predicate Injective(sha: string -> string) {
    forall a, b :: sha(a) == sha(b) ==> a == b
  }

  /** A file whose recorded content was another one stops every run at its version or before. */
  lemma EditedFileIsRefused(rows: seq<Record>, ms: seq<Migration>, entries: seq<Entry>, sha: string -> string,
                            attempts: Attempts, k: nat, applied: string, outcome: Outcome)
    requires Injective(sha) && UniqueRows(rows) && Ascending(ms) && LoadedFrom(ms, entries, sha)
    requires k < |entries| && !entries[k].isDir && ParseName(entries[k].name).Some?
    requires RecordedAs(rows, ParseName(entries[k].name).value.0, sha(applied)) && entries[k].content != Some(applied)
    requires Ends(rows, ms, attempts, outcome)
    ensures outcome.ChecksumMismatch? || outcome.ApplyFailed?
    ensures outcome.version <= ParseName(entries[k].name).value.0
  {
    var version := ParseName(entries[k].name).value.0;
    var m :| m in ms && FromEntry(m, entries[k], sha);
    var i :| 0 <= i < |ms| && ms[i] == m;
    assert sha(applied) != m.checksum;
    var at :| 0 <= at < |rows| && rows[at].version == version && rows[at].checksum == sha(applied);
    OneRow(rows, rows[at], m.checksum);
    assert Stops(rows, attempts, ms[i]);
    var stop := StopFrom(rows, ms, attempts, 0);
    assert stop <= i;
    assert stop < i ==> ms[stop].version < ms[i].version;
  }

  /** After a start that succeeded, no start from a directory in which one of its files has other
      content succeeds: it stops at that file or before it. */
  lemma EditsAreNoticed(rows: seq<Record>, before: seq<Entry>, after: seq<Entry>, sha: string -> string,
                        first: Attempts, second: Attempts, j: nat, k: nat, outcome: Outcome)
    requires Injective(sha) && UniqueRows(rows)
    requires Acceptable(before) && Acceptable(after)
    requires j < |before| && k < |after| && !before[j].isDir && !after[k].isDir
    requires ParseName(before[j].name).Some? && IsFileOf(after[k], ParseName(before[j].name).value.0)
    requires before[j].content != after[k].content
    requires Ends(rows, SortByVersion(Files(before, sha)), first, Success)
    requires var applied := rows + RecordsOf(Added(rows, SortByVersion(Files(before, sha)), first));
             Ends(applied, SortByVersion(Files(after, sha)), second, outcome)
    ensures outcome.ChecksumMismatch? || outcome.ApplyFailed?
    ensures outcome.version <= ParseName(before[j].name).value.0
  {
    var old', new' := SortByVersion(Files(before, sha)), SortByVersion(Files(after, sha));
    var applied := rows + RecordsOf(Added(rows, old', first));
    NoOffence(before);
    NoOffence(after);
    SortedFilesAreLoaded(before, sha);
    SortedFilesAreLoaded(after, sha);
    SortedFilesAscend(before, sha);
    SortedFilesAscend(after, sha);
    OutcomeContract(rows, old', first, Success);
    SuccessRecordsContents(rows, before, sha, first, old');
    assert RecordsContent(applied, before[j], sha);
    EditedFileIsRefused(applied, new', after, sha, second, k, before[j].content.value, outcome);
  }

  lemma SortedFilesAscend(entries: seq<Entry>, sha: string -> string)
    requires forall i :: 0 <= i < |entries| ==> Offence(entries, i) == None
    ensures Ascending(SortByVersion(Files(entries, sha)))
  {
    FilesVersions(entries, sha);
    SortAscends(Files(entries, sha));
  }

  // ---------------------------------------------------------------- the lifetime of a database

  /** One start of the program: the files it ships, sorted, and how its statements go. */
  datatype Release = Release(files: seq<Migration>, attempts: Attempts)

  datatype History = History(rows: seq<Record>, effects: seq<Migration>)

  ghost function Lifetime(releases: seq<Release>): History {
    if releases == [] then History([], [])
    else
      var before := Lifetime(releases[..|releases| - 1]);
      var last := releases[|releases| - 1];
      var added := Added(before.rows, last.files, last.attempts);
      History(before.rows + RecordsOf(added), before.effects + added)
  }

  /** A release keeps the files that have been applied as they were; whatever else it ships has
      a higher version, since its files are sorted. */
  ghost predicate Follows(releases: seq<Release>, k: nat)
    requires k < |releases|
  {
    && Ascending(releases[k].files)
    && (k > 0 ==> var n := |Lifetime(releases[..k]).rows|;
                  n <= |releases[k].files| && n <= |releases[k - 1].files|
                  && releases[k].files[..n] == releases[k - 1].files[..n])
  }

  ghost predicate AppendOnly(releases: seq<Release>) {
    forall k :: 0 <= k < |releases| ==> Follows(releases, k)
  }

  lemma RecordedInPrefix(ms: seq<Migration>, n: nat, i: nat)
    requires Ascending(ms) && n <= |ms| && i < |ms|
    ensures Recorded(RecordsOf(ms[..n]), ms[i].version) <==> i < n
  {
    var rows := RecordsOf(ms[..n]);
    if i < n {
      assert rows[i].version == ms[i].version;
    } else {
      assert forall k :: 0 <= k < n ==> rows[k].version == ms[k].version < ms[i].version;
    }
  }

  /** With the first `n` files recorded and no other, the rest of them is pending. */
  lemma {:induction false} PendingAfter(rows: seq<Record>, ms: seq<Migration>, n: nat, i: nat)
    requires n <= |ms| && i <= |ms|
    requires forall k :: 0 <= k < |ms| ==> (Recorded(rows, ms[k].version) <==> k < n)
    ensures i <= n ==> Pending(rows, ms[..i]) == []
    ensures n <= i ==> Pending(rows, ms[..i]) == ms[n..i]
  {
    if i > 0 {
      PendingAfter(rows, ms, n, i - 1);
      PendingSnoc(rows, ms, i - 1);
      if n < i {
        assert ms[n..i] == ms[n..i - 1] + [ms[i - 1]];
      }
    }
  }

  lemma PendingAfterPrefix(ms: seq<Migration>, n: nat, i: nat)
    requires Ascending(ms) && n <= |ms| && i <= |ms|
    ensures Pending(RecordsOf(ms[..n]), ms[..i]) == if i <= n then [] else ms[n..i]
  {
    forall k | 0 <= k < |ms| ensures Recorded(RecordsOf(ms[..n]), ms[k].version) <==> k < n {
      RecordedInPrefix(ms, n, k);
    }
    PendingAfter(RecordsOf(ms[..n]), ms, n, i);
  }

  lemma StopsAfterPrefix(ms: seq<Migration>, n: nat, attempts: Attempts)
    requires Ascending(ms) && n <= |ms|
    ensures var stop := StopFrom(RecordsOf(ms[..n]), ms, attempts, 0);
            n <= stop && (stop < |ms| ==> !Recorded(RecordsOf(ms[..n]), ms[stop].version))
  {
    var rows := RecordsOf(ms[..n]);
    forall k | 0 <= k < n ensures !Stops(rows, attempts, ms[k]) {
      assert rows[k].version == ms[k].version && rows[k].checksum == ms[k].checksum;
    }
  }

  /** A start whose table is a prefix of its files commits a further piece of them. */
  lemma RunExtendsPrefix(ms: seq<Migration>, n: nat, attempts: Attempts)
    requires Ascending(ms) && n <= |ms|
    ensures var added := Added(RecordsOf(ms[..n]), ms, attempts);
            n + |added| <= |ms| && added == ms[n..n + |added|]
  {
    var rows := RecordsOf(ms[..n]);
    var stop := StopFrom(rows, ms, attempts, 0);
    StopsAfterPrefix(ms, n, attempts);
    PendingAfterPrefix(ms, n, stop);
    if stop < |ms| {
      PieceGrows(ms, n, stop);
    }
  }

  lemma PieceGrows(ms: seq<Migration>, n: nat, stop: nat)
    requires n <= stop < |ms|
    ensures ms[n..stop] + [ms[stop]] == ms[n..stop + 1]
  {
  }

  /** It is never refused for an edited or a missing file. */
  lemma PrefixIsAccepted(ms: seq<Migration>, n: nat, attempts: Attempts, outcome: Outcome)
    requires Ascending(ms) && n <= |ms| && Ends(RecordsOf(ms[..n]), ms, attempts, outcome)
    ensures outcome == Success || outcome.ApplyFailed?
  {
  }

  lemma PrefixAndMore(files: seq<Migration>, n: nat, added: seq<Migration>)
    requires n + |added| <= |files| && added == files[n..n + |added|]
    ensures files[..n] + added == files[..n + |added|]
    ensures RecordsOf(files[..n]) + RecordsOf(added) == RecordsOf(files[..n + |added|])
  {
  }

  lemma EarlierReleases(releases: seq<Release>, k: nat)
    requires AppendOnly(releases) && k <= |releases|
    ensures AppendOnly(releases[..k])
  {
    var before := releases[..k];
    forall i | 0 <= i < k ensures Follows(before, i) {
      assert before[..i] == releases[..i] && Follows(releases, i);
    }
  }

  /** The executed statements are a piece of these files from their start, and the table lists
      exactly those. */
  ghost predicate PrefixOf(history: History, files: seq<Migration>) {
    && |history.effects| <= |files| && history.effects == files[..|history.effects|]
    && history.rows == RecordsOf(history.effects)
  }

  lemma StartKeepsPrefix(history: History, last: Release)
    requires Ascending(last.files) && PrefixOf(history, last.files)
    ensures var added := Added(history.rows, last.files, last.attempts);
            PrefixOf(History(history.rows + RecordsOf(added), history.effects + added), last.files)
  {
    var done := |history.effects|;
    RunExtendsPrefix(last.files, done, last.attempts);
    PrefixAndMore(last.files, done, Added(history.rows, last.files, last.attempts));
  }

  /** After any mix of failed and successful starts from an empty database, what has been
      executed is a prefix of the current files, in order, and the table says exactly that. */
  lemma {:induction false} LifetimeIsPrefix(releases: seq<Release>)
    requires releases != [] && AppendOnly(releases)
    ensures PrefixOf(Lifetime(releases), releases[|releases| - 1].files)
  {
    var n := |releases| - 1;
    assert Follows(releases, n);
    if n > 0 {
      EarlierReleases(releases, n);
      LifetimeIsPrefix(releases[..n]);
    }
    StartKeepsPrefix(Lifetime(releases[..n]), releases[n]);
  }

  /** No start in such a lifetime finds an edited or a missing file. */
  lemma NoReleaseIsRefused(releases: seq<Release>, k: nat, outcome: Outcome)
    requires AppendOnly(releases) && k < |releases|
    requires Ends(Lifetime(releases[..k]).rows, releases[k].files, releases[k].attempts, outcome)
    ensures outcome == Success || outcome.ApplyFailed?
  {
    var history, files := Lifetime(releases[..k]), releases[k].files;
    assert Follows(releases, k);
    if k > 0 {
      EarlierReleases(releases, k);
      LifetimeIsPrefix(releases[..k]);
    }
    assert PrefixOf(history, files);
    PrefixIsAccepted(files, |history.effects|, releases[k].attempts, outcome);
  }

  lemma AddedUnstopped(rows: seq<Record>, ms: seq<Migration>, attempts: Attempts)
    requires forall k :: 0 <= k < |ms| ==> !Stops(rows, attempts, ms[k])
    ensures Added(rows, ms, attempts) == Pending(rows, ms)
  {
    StopIs(rows, ms, attempts, |ms|);
    assert ms[..|ms|] == ms;
  }

  lemma NothingRecorded(rows: seq<Record>, ms: seq<Migration>)
    requires rows == []
    ensures Pending(rows, ms) == ms
  {
  }

  lemma UndisturbedRun(ms: seq<Migration>, attempts: Attempts)
    requires forall v :: attempts(v).Result() == Works
    ensures Added([], ms, attempts) == ms
  {
    var rows: seq<Record> := [];
    NothingRecorded(rows, ms);
    forall k | 0 <= k < |ms| ensures !Stops(rows, attempts, ms[k]) {
      assert !Recorded(rows, ms[k].version) && attempts(ms[k].version).Result() == Works;
    }
    AddedUnstopped(rows, ms, attempts);
  }

  /** Several starts execute what one undisturbed start over the same prefix would. */
  lemma LifetimeEqualsOneRun(releases: seq<Release>, attempts: Attempts)
    requires releases != [] && AppendOnly(releases)
    requires forall v :: attempts(v).Result() == Works
    ensures var history := Lifetime(releases);
            var files := releases[|releases| - 1].files;
            |history.effects| <= |files| && history.effects == Added([], files[..|history.effects|], attempts)
  {
    LifetimeIsPrefix(releases);
    assert Follows(releases, |releases| - 1);
    var files := releases[|releases| - 1].files;
    UndisturbedRun(files[..|Lifetime(releases).effects|], attempts);
  }
}

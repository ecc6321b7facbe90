/** The migration runner: a registry of numbered migrations, a ledger of the ones
    applied, and one transaction per migration. */
module MigrationRunner {

  datatype Option<+T> = None | Some(value: T)

  /** `applies` says that there is a function that applies it. */
  datatype Migration = Migration(version: int, name: string, checksum: string, applies: bool)

  /** A ledger row; old ledgers have rows without a checksum. */
  datatype Row = Row(version: int, name: string, checksum: Option<string>)

  datatype Error =
    | InvalidRegistry(index: nat) | UnsafeRole | HistoryGap(version: int) | DatabaseAhead(version: int)
    | Mismatch(version: int) | Interrupted | NotLocked | NotUnlocked

  datatype Result = Ok | Err(error: Error)

  datatype Report = Report(currentVersion: int, applied: seq<Migration>)

  /** The database role the runner connects with. */
  datatype Role = Role(superuser: bool, bypassRLS: bool)

  predicate Safe(role: Role) {
    !role.superuser && !role.bypassRLS
  }

  // ---- Registries ---------------------------------------------------------------------

  predicate NameChar(c: char) {
    'a' <= c <= 'z' || '0' <= c <= '9'
  }

  /** Lower-case words and digits joined by single underscores. */
  predicate ValidName(s: string) {
    && s != "" && NameChar(s[0]) && NameChar(s[|s| - 1])
    && forall i :: 0 <= i < |s| ==> NameChar(s[i]) || (s[i] == '_' && 0 < i && NameChar(s[i - 1]))
  }

  predicate Word(w: string) {
    w != "" && forall i :: 0 <= i < |w| ==> NameChar(w[i])
  }

  predicate AllWords(words: seq<string>) {
    words != [] && forall i :: 0 <= i < |words| ==> Word(words[i])
  }

  function Joined(words: seq<string>): string
    requires words != []
  {
    var n := |words| - 1;
    if n == 0 then words[0] else Joined(words[..n]) + "_" + words[n]
  }

  lemma {:induction false} JoinedIsValid(words: seq<string>)
    requires AllWords(words)
    ensures ValidName(Joined(words))
  {
    var n := |words| - 1;
    if n > 0 {
      JoinedIsValid(words[..n]);
      var front, s := Joined(words[..n]), Joined(words);
      assert s == front + "_" + words[n] && s[|front|] == '_';
      forall i | 0 <= i < |s| ensures NameChar(s[i]) || (s[i] == '_' && 0 < i && NameChar(s[i - 1])) {
        if i < |front| { assert s[i] == front[i] && (i > 0 ==> s[i - 1] == front[i - 1]); }
        else if i == |front| { assert s[i - 1] == front[|front| - 1]; }
        else { assert s[i] == words[n][i - |front| - 1]; }
      }
    }
  }

  lemma ValidPrefix(s: string, n: nat)
    requires ValidName(s) && 0 < n <= |s| && NameChar(s[n - 1])
    ensures ValidName(s[..n])
  {
    forall i | 0 <= i < n ensures NameChar(s[..n][i]) || (s[..n][i] == '_' && 0 < i && NameChar(s[..n][i - 1])) {
      assert s[..n][i] == s[i] && (i > 0 ==> s[..n][i - 1] == s[i - 1]);
    }
  }

  lemma {:induction false} ValidIsJoined(s: string) returns (words: seq<string>)
    requires ValidName(s)
    ensures AllWords(words) && Joined(words) == s
  {
    var n := |s| - 1;
    if n == 0 {
      words := [s];
    } else if NameChar(s[n - 1]) {
      ValidPrefix(s, n);
      words := ValidIsJoined(s[..n]);
      var k := |words| - 1;
      var longer := words[k := words[k] + [s[n]]];
      assert longer[..k] == words[..k];
      words := longer;
      assert s == s[..n] + [s[n]];
    } else {
      ValidPrefix(s, n - 1);
      words := ValidIsJoined(s[..n - 1]);
      assert (words + [[s[n]]])[..|words|] == words;
      words := words + [[s[n]]];
      assert s == s[..n - 1] + "_" + [s[n]];
    }
  }

  /** A name is words of small letters and digits, joined by single underscores. */
  lemma NamesAreJoinedWords(s: string)
    ensures ValidName(s) <==> exists words :: AllWords(words) && Joined(words) == s
  {
    if ValidName(s) {
      var words := ValidIsJoined(s);
    }
    if words :| AllWords(words) && Joined(words) == s {
      JoinedIsValid(words);
    }
  }

  predicate ValidChecksum(s: string) {
    |s| == 64 && forall i :: 0 <= i < |s| ==> '0' <= s[i] <= '9' || 'a' <= s[i] <= 'f'
  }

  predicate EntryValid(m: Migration, i: nat) {
    m.version == i + 1 && ValidName(m.name) && ValidChecksum(m.checksum) && m.applies
  }

  predicate Valid(registry: seq<Migration>) {
    registry != [] && forall i :: 0 <= i < |registry| ==> EntryValid(registry[i], i)
  }

  method ValidateRegistry(registry: seq<Migration>) returns (r: Result)
    ensures r.Ok? <==> Valid(registry)
    ensures r.Ok? ==> registry != [] && forall i :: 0 <= i < |registry| ==>
      && registry[i].version == i + 1 && registry[i].applies && |registry[i].checksum| == 64
      && forall j :: 0 <= j < 64 ==> registry[i].checksum[j] in "0123456789abcdef"
    ensures r.Err? ==> r.error.InvalidRegistry? && var i := r.error.index;
      || (registry == [] && i == 0)
      || (i < |registry| && !EntryValid(registry[i], i) && forall k :: 0 <= k < i ==> EntryValid(registry[k], k))
  {
    if registry == [] { return Err(InvalidRegistry(0)); }
    var i := 0;
    while i < |registry|
      invariant 0 <= i <= |registry|
      invariant forall k :: 0 <= k < i ==> EntryValid(registry[k], k)
    {
      if !EntryValid(registry[i], i) { return Err(InvalidRegistry(i)); }
      i := i + 1;
    }
    return Ok;
  }

  // ---- Ledgers ----------------------------------------------------------------------------

  /** The row at a position is the registry's migration of that position. */
  predicate RowMatches(registry: seq<Migration>, i: nat, row: Row) {
    && i < |registry| && row.version == registry[i].version && row.name == registry[i].name
    && (row.checksum == None || row.checksum == Some("") || row.checksum == Some(registry[i].checksum))
  }

  /** The ledger records a prefix of the registry. */
  predicate IsPrefix(registry: seq<Migration>, ledger: seq<Row>) {
    forall i :: 0 <= i < |ledger| ==> RowMatches(registry, i, ledger[i])
  }

  /** The row has the right version, but another name or checksum. */
  predicate Mismatches(registry: seq<Migration>, ledger: seq<Row>, i: nat) {
    i < |ledger| && ledger[i].version == i + 1 && !RowMatches(registry, i, ledger[i])
  }

  function Recorded(m: Migration): Row {
    Row(m.version, m.name, Some(m.checksum))
  }

  /** The same row, possibly with its missing checksum filled in. */
  predicate Filled(registry: seq<Migration>, i: nat, before: Row, after: Row) {
    after == before || (i < |registry| && before.checksum == None
      && after == before.(checksum := Some(registry[i].checksum)))
  }

  /** A database: the ledger in version order, and the migrations its schema is the
      result of, in the order they were applied. */
  datatype Db = Db(ledger: seq<Row>, schema: seq<Migration>)

  /** What one run did: filled in some checksums, then applied the next `n` migrations
      of its registry, each together with its ledger row. */
  ghost predicate Did(registry: seq<Migration>, before: Db, after: Db, n: nat) {
    var k := |before.ledger|;
    && (n > 0 ==> k + n <= |registry|)
    && |after.ledger| == k + n
    && (forall i :: 0 <= i < k ==> Filled(registry, i, before.ledger[i], after.ledger[i]))
    && (n > 0 ==> after.schema == before.schema + registry[k..k + n])
    && (n == 0 ==> after.schema == before.schema)
    && (forall i :: k <= i < k + n ==>
          after.ledger[i] == Row(registry[i].version, registry[i].name, Some(registry[i].checksum)))
  }

  class Database {
    var ledger: seq<Row>
    var schema: seq<Migration>

    ghost function View(): Db
      reads this
    {
      Db(ledger, schema)
    }

    constructor (ledger: seq<Row>, schema: seq<Migration>)
      ensures View() == Db(ledger, schema)
    {
      this.ledger, this.schema := ledger, schema;
    }

    /** Compares the ledger with the registry, filling in missing checksums; the update sent
        for an empty one changes nothing. `writes` is how many statements the connection
        survives. */
    method Verify(registry: seq<Migration>, writes: nat) returns (r: Result, version: int, left: nat)
      requires Valid(registry)
      modifies this`ledger
      ensures |ledger| == |old(ledger)| && forall i :: 0 <= i < |ledger|
                                            ==> Filled(registry, i, old(ledger)[i], ledger[i])
      ensures r.Ok? ==> IsPrefix(registry, old(ledger)) && version == |ledger| && forall i :: 0 <= i < |ledger|
                                                                                   ==> ledger[i].checksum != None
      ensures r.Err? && r.error != Interrupted ==> !IsPrefix(registry, old(ledger))
      ensures r.Ok? ==> |ledger| <= |registry| && forall i :: 0 <= i < |ledger| ==>
        var before := old(ledger)[i];
        && before.version == registry[i].version && before.name == registry[i].name
        && before.checksum in {None, Some(""), Some(registry[i].checksum)}
        && ledger[i].checksum == if before.checksum == None then Some(registry[i].checksum) else before.checksum
      ensures r == Err(Interrupted) ==> writes < |ledger|
      ensures r.Err? ==> match r.error
        case HistoryGap(v) => 1 <= v <= |old(ledger)| && old(ledger)[v - 1].version != v
        case DatabaseAhead(v) => |registry| < v <= |old(ledger)| && old(ledger)[v - 1].version == v
        case Mismatch(v) => 1 <= v <= |registry| && Mismatches(registry, old(ledger), v - 1)
        case e => e == Interrupted
      ensures left <= writes && (r.Ok? ==> writes <= left + |ledger|)
    {
      version, left := 0, writes;
      var rows := ledger;
      var index := 0;
      while index < |rows|
        invariant 0 <= index <= |rows| && |ledger| == |rows| && version == index <= |registry|
        invariant forall i :: 0 <= i < index
                   ==> RowMatches(registry, i, rows[i]) && Filled(registry, i, rows[i], ledger[i])
                       && ledger[i].checksum != None
        invariant forall i :: index <= i < |rows| ==> ledger[i] == rows[i]
        invariant left <= writes <= left + index
      {
        var row := rows[index];
        if row.version != index + 1 { return Err(HistoryGap(index + 1)), version, left; }
        if row.version > |registry| { return Err(DatabaseAhead(row.version)), version, left; }
        var expected := registry[row.version - 1];
        assert EntryValid(expected, index);
        if row.name != expected.name { return Err(Mismatch(row.version)), version, left; }
        if row.checksum == None || row.checksum == Some("") {
          if left == 0 { return Err(Interrupted), version, left; }
          left := left - 1;
          if row.checksum == None {
            ledger := ledger[index := row.(checksum := Some(expected.checksum))];
          }
        } else if row.checksum != Some(expected.checksum) {
          return Err(Mismatch(row.version)), version, left;
        }
        version := row.version;
        index := index + 1;
      }
      return Ok, version, left;
    }

    /** Applies what the ledger lacks, one transaction each, while the connection lives. */
    method Apply(registry: seq<Migration>, writes: nat) returns (r: Result, report: Report)
      requires Valid(registry) && |ledger| <= |registry|
      modifies this
      ensures |old(ledger)| <= |ledger| <= |registry| && Did(registry, old(View()), View(), |ledger| - |old(ledger)|)
      ensures report == Report(|ledger|, registry[|old(ledger)|..|ledger|])
      ensures r.Ok? ==> |ledger| == |registry|
      ensures writes + |old(ledger)| >= |registry| ==> r.Ok?
      ensures r.Err? ==> r.error == Interrupted
    {
      var left := writes;
      ghost var k := |ledger|;
      report := Report(|ledger|, []);
      var i := 0;
      while i < |registry|
        invariant 0 <= i <= |registry|
        invariant report.currentVersion == |ledger| == if i <= k then k else i
        invariant report.applied == registry[k..|ledger|]
        invariant Did(registry, old(View()), View(), |ledger| - k)
        invariant left + |ledger| >= writes + k
      {
        assert EntryValid(registry[i], i);
        if registry[i].version > report.currentVersion {
          if left == 0 { return Err(Interrupted), report; }
          left := left - 1;
          DidOneMore(registry, old(View()), View(), |ledger| - k);
          schema := schema + [registry[i]];
          ledger := ledger + [Row(registry[i].version, registry[i].name, Some(registry[i].checksum))];
          report := Report(registry[i].version, report.applied + [registry[i]]);
        }
        i := i + 1;
      }
      return Ok, report;
    }

    /** One run under the advisory lock. The ghost result counts what it applied. */
    method RunLocked(registry: seq<Migration>, role: Role, writes: nat)
      returns (r: Result, report: Report, ghost n: nat)
      requires Valid(registry)
      modifies this
      ensures Did(registry, old(View()), View(), n) && |report.applied| == n
      ensures n > 0 ==> report == Report(|ledger|, registry[|old(ledger)|..|ledger|])
      ensures !IsPrefix(registry, old(ledger)) ==> n == 0 && r.Err?
      ensures r.Ok? ==> |ledger| == |registry| == report.currentVersion
      ensures r.Ok? ==> forall i :: 0 <= i < |ledger| ==>
        && ledger[i].version == i + 1 && ledger[i].name == registry[i].name
        && (ledger[i].checksum == Some(registry[i].checksum)
            || (i < |old(ledger)| && old(ledger)[i].checksum == Some("")))
      ensures Safe(role) && IsPrefix(registry, old(ledger)) && writes >= |registry| ==> r.Ok?
      ensures !Safe(role) <==> r == Err(UnsafeRole)
      ensures !Safe(role) ==> n == 0 && View() == old(View())
    {
      n := 0;
      report := Report(0, []);
      if role.superuser || role.bypassRLS { return Err(UnsafeRole), report, n; }
      PrefixIsShort(registry, ledger);
      var left, version;
      r, version, left := Verify(registry, writes);
      report := Report(version, []);
      if r.Err? { return; }
      ghost var verified := View();
      assert Did(registry, old(View()), verified, 0);
      r, report := Apply(registry, left);
      n := |ledger| - |verified.ledger|;
      DidAfterChecking(registry, old(View()), verified, View(), n);
    }

    /** The whole run: a bad registry or a lock that is not granted changes nothing, and a
        lock that cannot be given back turns success into an error. */
    method Run(registry: seq<Migration>, locks: bool, role: Role, writes: nat, unlocks: bool)
      returns (r: Result, report: Report, ghost n: nat)
      modifies this
      ensures !Valid(registry) || !locks ==> r.Err? && n == 0 && View() == old(View())
      ensures Did(registry, old(View()), View(), n) && |report.applied| == n
      ensures !IsPrefix(registry, old(ledger)) ==> n == 0 && r.Err?
      ensures r.Ok? ==> Valid(registry) && unlocks && |ledger| == |registry| == report.currentVersion
      ensures !Safe(role) ==> r.Err? && n == 0 && View() == old(View())
      ensures r == Err(UnsafeRole) <==> Valid(registry) && locks && !Safe(role)
      ensures Valid(registry) && locks && Safe(role) && IsPrefix(registry, old(ledger)) && writes >= |registry| ==>
        |ledger| == |registry| && (r.Ok? <==> unlocks)
    {
      n, report := 0, Report(0, []);
      r := ValidateRegistry(registry);
      if r.Err? { return; }
      if !locks { return Err(NotLocked), report, n; }
      r, report, n := RunLocked(registry, role, writes);
      if r.Ok? && !unlocks { return Err(NotUnlocked), report, n; }
    }
  }

  lemma PrefixIsShort(registry: seq<Migration>, ledger: seq<Row>)
    ensures IsPrefix(registry, ledger) ==> |ledger| <= |registry|
  {
    if IsPrefix(registry, ledger) && |ledger| > 0 {
      assert RowMatches(registry, |ledger| - 1, ledger[|ledger| - 1]);
    }
  }

  lemma DidOneMore(registry: seq<Migration>, before: Db, after: Db, n: nat)
    requires Did(registry, before, after, n) && |before.ledger| + n < |registry|
    ensures var m := registry[|before.ledger| + n];
      Did(registry, before, Db(after.ledger + [Recorded(m)], after.schema + [m]), n + 1)
  {
    var k := |before.ledger|;
    assert registry[k..k + n + 1] == registry[k..k + n] + [registry[k + n]];
  }

  lemma DidAfterChecking(registry: seq<Migration>, before: Db, mid: Db, after: Db, n: nat)
    requires Did(registry, before, mid, 0) && Did(registry, mid, after, n)
    ensures Did(registry, before, after, n)
  {
    forall i | 0 <= i < |before.ledger| ensures Filled(registry, i, before.ledger[i], after.ledger[i]) {
      assert Filled(registry, i, before.ledger[i], mid.ledger[i])
        && Filled(registry, i, mid.ledger[i], after.ledger[i]);
    }
  }

  // ---- Any number of runs -------------------------------------------------------------------

  /** One run of some binary: its registry, the role it ran under, how it ended, and how
      much it applied. */
  datatype RunRecord = RunRecord(registry: seq<Migration>, role: Role, ok: bool, applied: nat)

  /** What the contract of a run promises about its end points. */
  ghost predicate RanAs(run: RunRecord, before: Db, after: Db) {
    && Valid(run.registry) && Did(run.registry, before, after, run.applied)
    && (!IsPrefix(run.registry, before.ledger) ==> run.applied == 0 && !run.ok)
    && (run.ok ==> |after.ledger| == |run.registry|)
    && (!Safe(run.role) ==> !run.ok && run.applied == 0 && after == before)
  }

  /** Runs one after the other, which is all the advisory lock allows: crashes between
      transactions, older and newer binaries, replicas starting together. */
  ghost predicate History(runs: seq<RunRecord>, dbs: seq<Db>) {
    |dbs| == |runs| + 1 && forall i :: 0 <= i < |runs| ==> RanAs(runs[i], dbs[i], dbs[i + 1])
  }

  /** The schema is exactly what the ledger says was applied: the registry's
      migrations up to the ledger's length, each once and in order. */
  ghost predicate InStep(full: seq<Migration>, db: Db) {
    IsPrefix(full, db.ledger) && |db.ledger| <= |full| && db.schema == full[..|db.ledger|]
  }

  lemma OlderRegistryMatches(full: seq<Migration>, registry: seq<Migration>, ledger: seq<Row>)
    requires registry <= full
    ensures IsPrefix(registry, ledger) <==> IsPrefix(full, ledger) && |ledger| <= |registry|
  {
    forall i | 0 <= i < |registry| ensures registry[i] == full[i] {}
    PrefixIsShort(registry, ledger);
    if IsPrefix(registry, ledger) {
      forall i | 0 <= i < |ledger| ensures RowMatches(full, i, ledger[i]) { assert RowMatches(registry, i, ledger[i]); }
    }
    if IsPrefix(full, ledger) && |ledger| <= |registry| {
      forall i | 0 <= i < |ledger| ensures RowMatches(registry, i, ledger[i]) { assert RowMatches(full, i, ledger[i]); }
    }
  }

  lemma RunStaysInStep(full: seq<Migration>, run: RunRecord, before: Db, after: Db)
    requires run.registry <= full && InStep(full, before) && RanAs(run, before, after)
    ensures InStep(full, after) && |before.ledger| <= |after.ledger|
  {
    var k := |before.ledger|;
    OlderRegistryMatches(full, run.registry, before.ledger);
    forall i | 0 <= i < |run.registry| ensures run.registry[i] == full[i] {}
    forall i | 0 <= i < |after.ledger| ensures RowMatches(full, i, after.ledger[i]) {
      if i < k {
        assert RowMatches(full, i, before.ledger[i]) && Filled(run.registry, i, before.ledger[i], after.ledger[i]);
      } else {
        assert after.ledger[i] == Recorded(run.registry[i]);
      }
    }
    if run.applied > 0 {
      assert full[..k + run.applied] == full[..k] + run.registry[k..k + run.applied];
    }
  }

  /** Over any history of binaries whose registries are prefixes of one another, a
      ledger and a schema that start in step stay in step and never go back. */
  lemma {:induction false} HistoryStaysInStep(full: seq<Migration>, runs: seq<RunRecord>, dbs: seq<Db>, i: nat)
    requires History(runs, dbs) && InStep(full, dbs[0]) && i <= |runs|
    requires forall j :: 0 <= j < |runs| ==> runs[j].registry <= full
    ensures InStep(full, dbs[i]) && |dbs[0].ledger| <= |dbs[i].ledger|
  {
    if i > 0 {
      HistoryStaysInStep(full, runs, dbs, i - 1);
      RunStaysInStep(full, runs[i - 1], dbs[i - 1], dbs[i - 1 + 1]);
    }
  }

  /** In any history a database that only runs under unsafe roles see does not change. */
  lemma {:induction false} UnsafeRunsChangeNothing(runs: seq<RunRecord>, dbs: seq<Db>, i: nat, j: nat)
    requires History(runs, dbs) && i <= j <= |runs| && forall k :: i <= k < j ==> !Safe(runs[k].role)
    ensures dbs[j] == dbs[i] && forall k :: i <= k < j ==> !runs[k].ok
  {
    if i < j {
      UnsafeRunsChangeNothing(runs, dbs, i, j - 1);
      assert RanAs(runs[j - 1], dbs[j - 1], dbs[j - 1 + 1]);
    }
  }

  /** After a run succeeded its whole registry is applied, each migration once, and a
      second run of the same binary, whatever ran in between, applies nothing. */
  lemma SecondRunAppliesNothing(full: seq<Migration>, runs: seq<RunRecord>, dbs: seq<Db>, i: nat, j: nat)
    requires History(runs, dbs) && InStep(full, dbs[0]) && i < j < |runs|
    requires forall k :: 0 <= k < |runs| ==> runs[k].registry <= full
    requires runs[i].ok && runs[j].registry == runs[i].registry
    ensures dbs[i + 1].schema == runs[i].registry
    ensures runs[j].applied == 0 && dbs[j + 1].schema == dbs[j].schema
  {
    HistoryStaysInStep(full, runs, dbs, i + 1);
    var later := dbs[i + 1..];
    assert History(runs[i + 1..], later) by {
      forall k | 0 <= k < |runs[i + 1..]| ensures RanAs(runs[i + 1..][k], later[k], later[k + 1]) {
        assert RanAs(runs[i + 1 + k], dbs[i + 1 + k], dbs[i + 1 + k + 1]);
      }
    }
    HistoryStaysInStep(full, runs[i + 1..], later, j - i - 1);
    assert later[j - i - 1] == dbs[j];
    assert RanAs(runs[j], dbs[j], dbs[j + 1]);
    assert full[..|dbs[i + 1].ledger|] == runs[i].registry;
  }
}

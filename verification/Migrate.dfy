/** dbmigrate.js: the migration runner, which may fail or be stopped anywhere, be run again, and run beside
    other migrators of the same database. */
module Migrate {
  import opened Text
  import opened Acl

  // ---- the directory ----

  function Digits(s: string): (n: nat)
    ensures n <= |s|
  {
    if s == [] || !('0' <= s[0] <= '9') then 0 else 1 + Digits(s[1..])
  }

  predicate IsLineEnd(c: char) { c == '\n' || c == '\r' || c == '\U{2028}' || c == '\U{2029}' }

  /** A number, an underscore, something on one line, and the suffix. */
  predicate IsMigration(name: string) {
    var d := Digits(name);
    && d >= 1 && |name| >= d + 6 && name[d] == '_' && name[|name| - 4..] == ".sql"
    && forall i :: d < i < |name| ==> !IsLineEnd(name[i])
  }

  predicate Before(a: string, b: string) {
    if b == [] then false
    else if a == [] then true
    else if a[0] == b[0] then Before(a[1..], b[1..]) else a[0] < b[0]
  }

  predicate Ascending(names: seq<string>) {
    forall i, j :: 0 <= i < j < |names| ==> Before(names[i], names[j])
  }

  function Place(name: string, names: seq<string>): seq<string> {
    if names == [] || !Before(names[0], name) then [name] + names else [names[0]] + Place(name, names[1..])
  }

  /** filter and sort. */
  function Pending(entries: seq<string>): seq<string> {
    if entries == [] then []
    else if IsMigration(entries[0]) then Place(entries[0], Pending(entries[1..])) else Pending(entries[1..])
  }

  lemma {:induction false} BeforeTotal(a: string, b: string)
    ensures Before(a, b) ==> !Before(b, a)
    ensures Before(a, b) || Before(b, a) || a == b
  {
    if a != [] && b != [] && a[0] == b[0] {
      BeforeTotal(a[1..], b[1..]);
      assert a == [a[0]] + a[1..] && b == [b[0]] + b[1..];
    }
  }

  lemma {:induction false} BeforeTransitive(a: string, b: string, c: string)
    requires Before(a, b) && Before(b, c)
    ensures Before(a, c)
  {
    if a != [] && a[0] == b[0] && b[0] == c[0] { BeforeTransitive(a[1..], b[1..], c[1..]); }
  }

  lemma {:induction false} PlaceAscending(name: string, names: seq<string>)
    requires Ascending(names) && name !in names
    ensures Ascending(Place(name, names)) && forall x :: x in Place(name, names) <==> x == name || x in names
  {
    if names != [] {
      assert names == [names[0]] + names[1..];
      BeforeTotal(names[0], name);
      if Before(names[0], name) {
        var rest := names[1..];
        assert forall i :: 0 <= i < |rest| ==> rest[i] == names[i + 1];
        PlaceAscending(name, rest);
        var placed := Place(name, rest);
        forall j | 0 <= j < |placed| ensures Before(names[0], placed[j]) {
          assert placed[j] in placed;
          if placed[j] != name { var i :| 0 <= i < |rest| && rest[i] == placed[j]; }
        }
      } else {
        forall j | 0 <= j < |names| ensures Before(name, names[j]) {
          if j > 0 { BeforeTransitive(name, names[0], names[j]); }
        }
      }
    }
  }

  /** The list is ascending and holds exactly the migration files of the directory. */
  lemma {:induction false} PendingSorted(entries: seq<string>)
    requires NoDup(entries)
    ensures Ascending(Pending(entries)) && forall x :: x in Pending(entries) <==> x in entries && IsMigration(x)
  {
    if entries != [] {
      var rest := entries[1..];
      assert entries == [entries[0]] + rest;
      assert forall i :: 0 <= i < |rest| ==> rest[i] == entries[i + 1];
      PendingSorted(rest);
      if IsMigration(entries[0]) { PlaceAscending(entries[0], Pending(rest)); }
    }
  }

  lemma HeadIn(a: seq<string>)
    ensures a != [] ==> exists x :: x in a
  {
    if a != [] { assert a[0] in a; }
  }

  lemma {:induction false} AscendingUnique(a: seq<string>, b: seq<string>)
    requires Ascending(a) && Ascending(b) && forall x :: x in a <==> x in b
    ensures a == b
  {
    if a == [] {
      HeadIn(b);
    } else {
      assert a[0] in a && a[0] in b && b[0] in b && b[0] in a;
      var i :| 0 <= i < |b| && b[i] == a[0];
      var j :| 0 <= j < |a| && a[j] == b[0];
      BeforeTotal(a[0], b[0]);
      assert a[0] == b[0];
      assert a == [a[0]] + a[1..] && b == [b[0]] + b[1..];
      forall x ensures x in a[1..] <==> x in b[1..] { TailMembers(a, x); TailMembers(b, x); }
      AscendingUnique(a[1..], b[1..]);
    }
  }

  lemma TailMembers(a: seq<string>, x: string)
    requires Ascending(a) && a != []
    ensures x in a[1..] <==> x in a && x != a[0]
    ensures Ascending(a[1..])
  {
    assert a == [a[0]] + a[1..];
    assert forall i :: 0 <= i < |a| - 1 ==> a[1..][i] == a[i + 1];
    BeforeTotal(a[0], a[0]);
  }

  /** The order in which the directory is listed does not matter. */
  lemma ListingOrderIrrelevant(entries: seq<string>, entries': seq<string>)
    requires NoDup(entries) && NoDup(entries') && forall x :: x in entries <==> x in entries'
    ensures Pending(entries) == Pending(entries')
  {
    PendingSorted(entries);
    PendingSorted(entries');
    AscendingUnique(Pending(entries), Pending(entries'));
  }

  /** At the first difference, position `k`, the first name ends or has the smaller character. */
  ghost predicate SmallerAt(a: string, b: string, k: int) {
    && 0 <= k <= |a| && k <= |b| && a[..k] == b[..k]
    && ((k == |a| && |a| < |b|) || (k < |a| && k < |b| && a[k] < b[k]))
  }

  ghost predicate Smaller(a: string, b: string) { exists k :: SmallerAt(a, b, k) }

  lemma {:induction false} BeforeSmaller(a: string, b: string)
    requires Before(a, b)
    ensures Smaller(a, b)
  {
    if a != [] && a[0] == b[0] {
      BeforeSmaller(a[1..], b[1..]);
      var k :| SmallerAt(a[1..], b[1..], k);
      assert a[..k + 1] == [a[0]] + a[1..][..k] && b[..k + 1] == [b[0]] + b[1..][..k];
      assert SmallerAt(a, b, k + 1);
    } else {
      assert SmallerAt(a, b, 0);
    }
  }

  /** A number in decimal digits, an underscore, a description on one line, and the suffix. */
  ghost predicate NamedAs(name: string, digits: string, rest: string) {
    && name == digits + "_" + rest + ".sql" && digits != "" && rest != ""
    && (forall c :: c in digits ==> c in "0123456789") && forall c :: c in rest ==> c !in "\n\r\U{2028}\U{2029}"
  }

  lemma DigitChars(c: char)
    ensures '0' <= c <= '9' <==> c in "0123456789"
    ensures IsLineEnd(c) <==> c in "\n\r\U{2028}\U{2029}"
  {
    if '0' <= c <= '9' { assert "0123456789"[c as int - '0' as int] == c; }
    var ends := "\n\r\U{2028}\U{2029}";
    assert ends[0] == '\n' && ends[1] == '\r' && ends[2] == '\U{2028}' && ends[3] == '\U{2029}';
  }

  lemma {:induction false} DigitsPrefix(s: string)
    ensures forall i :: 0 <= i < Digits(s) ==> '0' <= s[i] <= '9'
  {
    if s != [] && '0' <= s[0] <= '9' { DigitsPrefix(s[1..]); }
  }

  lemma {:induction false} DigitsOf(digits: string, rest: string)
    requires (forall i :: 0 <= i < |digits| ==> '0' <= digits[i] <= '9') && rest != [] && !('0' <= rest[0] <= '9')
    ensures Digits(digits + rest) == |digits|
  {
    if digits == [] {
      assert digits + rest == rest;
    } else {
      assert (digits + rest)[1..] == digits[1..] + rest;
      DigitsOf(digits[1..], rest);
    }
  }

  lemma MigrationNamed(name: string)
    requires IsMigration(name)
    ensures exists digits, rest :: NamedAs(name, digits, rest)
  {
    var d := Digits(name);
    var digits, rest := name[..d], name[d + 1..|name| - 4];
    DigitsPrefix(name);
    forall c | c in digits ensures c in "0123456789" { DigitChars(c); }
    forall c | c in rest ensures c !in "\n\r\U{2028}\U{2029}" {
      var i :| 0 <= i < |rest| && rest[i] == c;
      assert name[d + 1 + i] == c;
      DigitChars(c);
    }
    assert name == digits + "_" + rest + ".sql";
    assert NamedAs(name, digits, rest);
  }

  lemma NamedMigration(name: string, digits: string, rest: string)
    requires NamedAs(name, digits, rest)
    ensures IsMigration(name)
  {
    var tail := "_" + rest + ".sql";
    assert name == digits + tail;
    forall i | 0 <= i < |digits| ensures '0' <= digits[i] <= '9' {
      assert digits[i] in digits;
      DigitChars(digits[i]);
    }
    DigitsOf(digits, tail);
    assert name[|name| - 4..] == ".sql";
    forall i | |digits| < i < |name| ensures !IsLineEnd(name[i]) {
      assert name[i] == (rest + ".sql")[i - |digits| - 1];
      OneLine(rest, i - |digits| - 1);
    }
  }

  lemma OneLine(rest: string, i: nat)
    requires (forall c :: c in rest ==> c !in "\n\r\U{2028}\U{2029}") && i < |rest| + 4
    ensures !IsLineEnd((rest + ".sql")[i])
  {
    DigitChars((rest + ".sql")[i]);
    if i < |rest| { assert rest[i] in rest; }
  }

  /** The files in the order in which they are applied: exactly the migration files of the directory, each
      name smaller than the next. */
  lemma FilesInOrder(entries: seq<string>)
    requires NoDup(entries)
    ensures forall i, j :: 0 <= i < j < |Pending(entries)| ==> Smaller(Pending(entries)[i], Pending(entries)[j])
    ensures forall x :: x in Pending(entries) <==> x in entries && exists digits, rest :: NamedAs(x, digits, rest)
  {
    PendingSorted(entries);
    var list := Pending(entries);
    forall i, j | 0 <= i < j < |list| ensures Smaller(list[i], list[j]) { BeforeSmaller(list[i], list[j]); }
    forall x ensures IsMigration(x) <==> exists digits, rest :: NamedAs(x, digits, rest) { MigrationIff(x); }
  }

  lemma MigrationIff(name: string)
    ensures IsMigration(name) <==> exists digits, rest :: NamedAs(name, digits, rest)
  {
    if IsMigration(name) { MigrationNamed(name); }
    if digits, rest :| NamedAs(name, digits, rest) { NamedMigration(name, digits, rest); }
  }

  // ---- the database ----

  /** What running a file does to a schema; None when the SQL fails. */
  type Sql<!S> = (string, S) -> Option<S>

  /** The schema, and the versions recorded in schema_migrations in the order of their commits. */
  datatype Db<S> = Db(schema: S, versions: seq<string>)

  /** How a transaction that could commit ends: it does, it breaks before its commit, or it commits and the
      connection breaks before the answer. */
  datatype Fate = Commits | Breaks | CommitsUnheard

  /** One transaction: run the file and record it, or neither. A version already there is a conflict. */
  function Transact<S>(sql: Sql<S>, d: Db<S>, file: string, fate: Fate): (Db<S>, bool) {
    match sql(file, d.schema)
    case None => (d, false)
    case Some(schema) =>
      if file in d.versions || fate.Breaks? then (d, false) else (Db(schema, d.versions + [file]), fate.Commits?)
  }

  class Database<S> {
    const sql: Sql<S>
    var schema: S
    var versions: seq<string>

    function Value(): Db<S>
      reads this
    {
      Db(schema, versions)
    }

    constructor (sql: Sql<S>, schema: S)
      ensures this.sql == sql && Value() == Db(schema, [])
    {
      this.sql := sql;
      this.schema := schema;
      versions := [];
    }

    method ApplyFile(file: string, fate: Fate) returns (ok: bool)
      modifies this
      ensures (Value(), ok) == Transact(sql, old(Value()), file, fate)
    {
      var saved := schema;
      var ran := sql(file, schema);
      if ran.None? { return false; }
      schema := ran.value;
      if file in versions || fate.Breaks? {
        schema := saved;
        return false;
      }
      versions := versions + [file];
      return fate.Commits?;
    }
  }

  // ---- one migrator ----

  datatype Status = Listing | Running | Finished | Stopped(file: string)

  datatype Migrator = Migrator(files: seq<string>, seen: set<string>, pos: nat, applied: seq<string>, status: Status)

  /** One iteration of the loop. */
  function Advance<S>(sql: Sql<S>, d: Db<S>, m: Migrator, fate: Fate): (Db<S>, Migrator) {
    if !m.status.Running? then (d, m)
    else if m.pos >= |m.files| then (d, m.(status := Finished))
    else if m.files[m.pos] in m.seen then (d, m.(pos := m.pos + 1))
    else
      var (d', ok) := Transact(sql, d, m.files[m.pos], fate);
      (d', if ok then m.(pos := m.pos + 1, applied := m.applied + [m.files[m.pos]])
           else m.(status := Stopped(m.files[m.pos])))
  }

  /** SELECT version: the loop starts. */
  function Select<S>(d: Db<S>, m: Migrator): Migrator {
    if m.status.Listing? then m.(seen := (set v | v in d.versions), status := Running) else m
  }

  function Fresh(entries: seq<string>): Migrator { Migrator(Pending(entries), {}, 0, [], Listing) }

  function Iterate<S>(sql: Sql<S>, d: Db<S>, m: Migrator, fates: nat -> Fate, n: nat): (Db<S>, Migrator) {
    if n == 0 then (d, m)
    else var (d1, m1) := Iterate(sql, d, m, fates, n - 1); Advance(sql, d1, m1, fates(n - 1))
  }

  datatype Report = Report(applied: seq<string>, skipped: nat)

  /** dbMigrate on an existing directory, alone on its database. It throws the file whose transaction did
      not end well. */
  method DbMigrate<S>(db: Database<S>, entries: seq<string>, fates: nat -> Fate) returns (r: Result<Report, string>)
    modifies db
    ensures var m0 := Select(old(db.Value()), Fresh(entries));
            var (d, m) := Iterate(db.sql, old(db.Value()), m0, fates, |Pending(entries)| + 1);
            && db.Value() == d
            && match r
               case Ok(report) =>
                 m.status.Finished? && report.applied == m.applied && report.skipped == |m.files| - |m.applied|
               case Err(file) => m.status == Stopped(file)
  {
    var migrations := Pending(entries);
    ghost var before := db.Value();
    var alreadyApplied := set v | v in db.versions;
    ghost var m0 := Select(before, Fresh(entries));
    var applied := [];
    for i := 0 to |migrations|
      invariant |applied| <= i
      invariant Iterate(db.sql, before, m0, fates, i)
                == (db.Value(), Migrator(migrations, alreadyApplied, i, applied, Running))
    {
      var file := migrations[i];
      OneFile(db.sql, before, m0, fates, i, db.Value(), Migrator(migrations, alreadyApplied, i, applied, Running));
      if file in alreadyApplied { continue; }
      var ok := db.ApplyFile(file, fates(i));
      if !ok {
        StoppedStays(db.sql, before, m0, fates, i + 1, |migrations| + 1);
        return Err(file);
      }
      applied := applied + [file];
    }
    return Ok(Report(applied, |migrations| - |applied|));
  }

  lemma OneFile<S>(sql: Sql<S>, d: Db<S>, m: Migrator, fates: nat -> Fate, i: nat, d1: Db<S>, m1: Migrator)
    requires Iterate(sql, d, m, fates, i) == (d1, m1) && m1.status.Running? && m1.pos < |m1.files|
    ensures Iterate(sql, d, m, fates, i + 1)
            == if m1.files[m1.pos] in m1.seen then (d1, m1.(pos := m1.pos + 1))
               else
                 var (d2, ok) := Transact(sql, d1, m1.files[m1.pos], fates(i));
                 (d2, if ok then m1.(pos := m1.pos + 1, applied := m1.applied + [m1.files[m1.pos]])
                      else m1.(status := Stopped(m1.files[m1.pos])))
  {
  }

  lemma {:induction false} StoppedStays<S>(sql: Sql<S>, d: Db<S>, m: Migrator, fates: nat -> Fate, i: nat, n: nat)
    requires i <= n && Iterate(sql, d, m, fates, i).1.status.Stopped?
    ensures Iterate(sql, d, m, fates, n) == Iterate(sql, d, m, fates, i)
    decreases n
  {
    if i < n { StoppedStays(sql, d, m, fates, i, n - 1); }
  }

  // ---- any number of migrators, one after another or at once ----

  datatype World<S> = World(db: Db<S>, migrators: seq<Migrator>)

  /** Start lists the directory; a migrator can die between any two of its steps. */
  datatype Act = Start(entries: seq<string>) | Read(i: nat) | Loop(i: nat, fate: Fate) | Die(i: nat)

  function Turn<S>(sql: Sql<S>, w: World<S>, a: Act): World<S> {
    match a
    case Start(entries) => w.(migrators := w.migrators + [Fresh(entries)])
    case Read(i) =>
      if i < |w.migrators| then w.(migrators := w.migrators[i := Select(w.db, w.migrators[i])]) else w
    case Loop(i, fate) =>
      if i < |w.migrators| then
        var (d, m) := Advance(sql, w.db, w.migrators[i], fate);
        World(d, w.migrators[i := m])
      else w
    case Die(i) =>
      if i < |w.migrators| then w.(migrators := w.migrators[i := w.migrators[i].(status := Stopped(""))]) else w
  }

  function History<S>(sql: Sql<S>, w: World<S>, acts: seq<Act>): World<S> {
    if acts == [] then w else Turn(sql, History(sql, w, acts[..|acts| - 1]), acts[|acts| - 1])
  }

  /** The schema after running files in order from an empty database; None if one fails. */
  function Fold<S>(sql: Sql<S>, schema: S, files: seq<string>): Option<S> {
    if files == [] then Some(schema)
    else
      match Fold(sql, schema, files[..|files| - 1])
      case None => None
      case Some(s) => sql(files[|files| - 1], s)
  }

  /** Each file took effect at most once, and the schema is what the recorded files make of an empty one. */
  ghost predicate Consistent<S>(sql: Sql<S>, empty: S, d: Db<S>) {
    NoDup(d.versions) && Fold(sql, empty, d.versions) == Some(d.schema)
  }

  lemma TransactConsistent<S>(sql: Sql<S>, empty: S, d: Db<S>, file: string, fate: Fate)
    requires Consistent(sql, empty, d)
    ensures Consistent(sql, empty, Transact(sql, d, file, fate).0)
  {
    var d' := Transact(sql, d, file, fate).0;
    if d' != d {
      assert d'.versions[..|d.versions|] == d.versions;
      forall i, j | 0 <= i < j < |d'.versions| ensures d'.versions[i] != d'.versions[j] {
        assert d'.versions[i] == d.versions[i];
      }
    }
  }

  /** Whatever the migrators, their directories, their failures and their interleaving, no file takes effect
      twice and the schema is the fold of the recorded files. */
  lemma {:induction false} AtMostOnce<S>(sql: Sql<S>, empty: S, w: World<S>, acts: seq<Act>)
    requires Consistent(sql, empty, w.db)
    ensures Consistent(sql, empty, History(sql, w, acts).db)
  {
    if acts != [] {
      var n := |acts| - 1;
      var v := History(sql, w, acts[..n]);
      AtMostOnce(sql, empty, w, acts[..n]);
      if acts[n].Loop? && acts[n].i < |v.migrators| {
        var m := v.migrators[acts[n].i];
        if m.pos < |m.files| { TransactConsistent(sql, empty, v.db, m.files[m.pos], acts[n].fate); }
      }
    }
  }

  // ---- a fixed directory ----

  /** The recorded versions are the first files of the list, in order, and include all that any migrator has
      passed or seen. */
  ghost predicate Prefix<S>(w: World<S>, list: seq<string>) {
    && w.db.versions <= list
    && forall i :: 0 <= i < |w.migrators| ==> MigratorOk(w.migrators[i], w.db.versions, list)
  }

  ghost predicate MigratorOk(m: Migrator, versions: seq<string>, list: seq<string>) {
    && m.files == list && m.pos <= |versions| && (m.status.Finished? ==> m.pos == |list|)
    && forall v :: v in m.seen ==> v in versions
  }

  lemma MigratorGrows(m: Migrator, versions: seq<string>, versions': seq<string>, list: seq<string>)
    requires MigratorOk(m, versions, list) && versions <= versions'
    ensures MigratorOk(m, versions', list)
  {
    forall v | v in m.seen ensures v in versions' {
      var i :| 0 <= i < |versions| && versions[i] == v;
      assert versions'[i] == v;
    }
  }

  lemma AdvancePrefix<S>(sql: Sql<S>, d: Db<S>, m: Migrator, fate: Fate, list: seq<string>)
    requires MigratorOk(m, d.versions, list) && d.versions <= list && NoDup(list)
    ensures var (d', m') := Advance(sql, d, m, fate);
            MigratorOk(m', d'.versions, list) && d.versions <= d'.versions <= list
  {
    if m.status.Running? && m.pos < |m.files| {
      RecordedIffPassed(d.versions, list, m.pos);
      assert m.pos == |d.versions| ==> d.versions + [m.files[m.pos]] == list[..m.pos + 1];
    }
  }

  lemma RecordedIffPassed(versions: seq<string>, list: seq<string>, pos: nat)
    requires versions <= list && NoDup(list) && pos < |list|
    ensures list[pos] in versions <==> pos < |versions|
  {
    if list[pos] in versions {
      var i :| 0 <= i < |versions| && versions[i] == list[pos];
      assert list[i] == list[pos];
    }
    assert pos < |versions| ==> versions[pos] == list[pos];
  }

  lemma TurnPrefix<S>(sql: Sql<S>, w: World<S>, a: Act, list: seq<string>)
    requires Prefix(w, list) && NoDup(list) && (a.Start? ==> Pending(a.entries) == list)
    ensures Prefix(Turn(sql, w, a), list)
  {
    var w' := Turn(sql, w, a);
    if a.Loop? && a.i < |w.migrators| { AdvancePrefix(sql, w.db, w.migrators[a.i], a.fate, list); }
    forall i | 0 <= i < |w'.migrators| ensures MigratorOk(w'.migrators[i], w'.db.versions, list) {
      if i < |w.migrators| {
        assert MigratorOk(w.migrators[i], w.db.versions, list);
        if !(a.Loop? && a.i == i) { MigratorGrows(w.migrators[i], w.db.versions, w'.db.versions, list); }
      }
    }
  }

  lemma {:induction false} HistoryPrefix<S>(sql: Sql<S>, w: World<S>, acts: seq<Act>, list: seq<string>)
    requires Prefix(w, list) && NoDup(list)
    requires forall i :: 0 <= i < |acts| && acts[i].Start? ==> Pending(acts[i].entries) == list
    ensures Prefix(History(sql, w, acts), list)
  {
    if acts != [] {
      var n := |acts| - 1;
      assert forall i :: 0 <= i < n ==> acts[..n][i] == acts[i];
      HistoryPrefix(sql, w, acts[..n], list);
      TurnPrefix(sql, History(sql, w, acts[..n]), acts[n], list);
    }
  }

  ghost predicate SameDirectory(entries: seq<string>, acts: seq<Act>) {
    forall i :: 0 <= i < |acts| && acts[i].Start? ==>
      NoDup(acts[i].entries) && forall x :: x in acts[i].entries <==> x in entries
  }

  lemma AscendingNoDup(names: seq<string>)
    requires Ascending(names)
    ensures NoDup(names)
  {
    forall i, j | 0 <= i < j < |names| ensures names[i] != names[j] { BeforeTotal(names[i], names[j]); }
  }

  /** With a fixed directory the recorded versions are at every moment a prefix of its sorted list, and the
      schema is the one that this prefix gives. As soon as one migrator finishes, whatever stopped before or
      beside it, the whole list is recorded: the state of one uninterrupted run. */
  lemma Resume<S>(sql: Sql<S>, empty: S, entries: seq<string>, acts: seq<Act>)
    requires NoDup(entries) && SameDirectory(entries, acts)
    ensures var list := Pending(entries);
            var w := History(sql, World(Db(empty, []), []), acts);
            && w.db.versions <= list && Fold(sql, empty, w.db.versions) == Some(w.db.schema)
            && ((exists i :: 0 <= i < |w.migrators| && w.migrators[i].status.Finished?) ==>
                  w.db.versions == list && Fold(sql, empty, list) == Some(w.db.schema))
  {
    var list := Pending(entries);
    var w0 := World(Db(empty, []), []);
    PendingSorted(entries);
    AscendingNoDup(list);
    forall i | 0 <= i < |acts| && acts[i].Start? ensures Pending(acts[i].entries) == list {
      ListingOrderIrrelevant(acts[i].entries, entries);
    }
    HistoryPrefix(sql, w0, acts, list);
    AtMostOnce(sql, empty, w0, acts);
    var w := History(sql, w0, acts);
    forall i | 0 <= i < |w.migrators| && w.migrators[i].status.Finished? ensures w.db.versions == list {
      assert MigratorOk(w.migrators[i], w.db.versions, list);
    }
  }

  lemma {:induction false} FoldPrefix<S>(sql: Sql<S>, empty: S, files: seq<string>, k: nat)
    requires k <= |files| && Fold(sql, empty, files).Some?
    ensures Fold(sql, empty, files[..k]).Some?
    decreases |files| - k
  {
    if k == |files| {
      assert files[..k] == files;
    } else {
      FoldPrefix(sql, empty, files, k + 1);
      assert files[..k + 1][..k] == files[..k];
    }
  }

  function AllCommit(n: nat): Fate { Commits }

  /** A run that began with the first `k` files recorded has passed `n` files. */
  ghost predicate Passed<S>(sql: Sql<S>, empty: S, list: seq<string>, k: nat, n: nat, d: Db<S>, m: Migrator)
    requires k <= |list| && n <= |list|
  {
    var top := if k <= n then n else k;
    && d.versions == list[..top] && Fold(sql, empty, list[..top]) == Some(d.schema)
    && m == Migrator(list, (set v | v in list[..k]), n, if k <= n then list[k..n] else [], Running)
  }

  lemma PassRecorded<S>(sql: Sql<S>, empty: S, list: seq<string>, k: nat, n: nat, d: Db<S>, m: Migrator)
    requires n < k <= |list| && Passed(sql, empty, list, k, n, d, m)
    ensures var (d', m') := Advance(sql, d, m, Commits); Passed(sql, empty, list, k, n + 1, d', m')
  {
    assert list[..k][n] == list[n];
    assert list[k..k] == [];
  }

  lemma FoldSnoc<S>(sql: Sql<S>, empty: S, list: seq<string>, n: nat)
    requires n < |list| && Fold(sql, empty, list).Some?
    ensures Fold(sql, empty, list[..n]).Some? && sql(list[n], Fold(sql, empty, list[..n]).value).Some?
    ensures Fold(sql, empty, list[..n + 1]) == sql(list[n], Fold(sql, empty, list[..n]).value)
  {
    FoldPrefix(sql, empty, list, n);
    FoldPrefix(sql, empty, list, n + 1);
    assert list[..n + 1][..n] == list[..n];
  }

  lemma SliceSnoc(list: seq<string>, k: nat, n: nat)
    requires k <= n < |list|
    ensures list[..n + 1] == list[..n] + [list[n]] && list[k..n + 1] == list[k..n] + [list[n]]
  {
  }

  lemma AdvanceNew<S>(sql: Sql<S>, d: Db<S>, m: Migrator)
    requires m.status.Running? && m.pos < |m.files| && m.files[m.pos] !in m.seen && m.files[m.pos] !in d.versions
    requires sql(m.files[m.pos], d.schema).Some?
    ensures Advance(sql, d, m, Commits)
            == (Db(sql(m.files[m.pos], d.schema).value, d.versions + [m.files[m.pos]]),
                m.(pos := m.pos + 1, applied := m.applied + [m.files[m.pos]]))
  {
  }

  lemma PassNew<S>(sql: Sql<S>, empty: S, list: seq<string>, k: nat, n: nat, d: Db<S>, m: Migrator)
    requires k <= n < |list| && NoDup(list) && Fold(sql, empty, list).Some? && Passed(sql, empty, list, k, n, d, m)
    ensures var (d', m') := Advance(sql, d, m, Commits); Passed(sql, empty, list, k, n + 1, d', m')
  {
    RecordedIffPassed(list[..k], list, n);
    RecordedIffPassed(list[..n], list, n);
    FoldSnoc(sql, empty, list, n);
    SliceSnoc(list, k, n);
    AdvanceNew(sql, d, m);
  }

  lemma PassOne<S>(sql: Sql<S>, empty: S, list: seq<string>, k: nat, n: nat, d: Db<S>, m: Migrator)
    requires k <= |list| && n < |list| && NoDup(list) && Fold(sql, empty, list).Some?
    requires Passed(sql, empty, list, k, n, d, m)
    ensures var (d', m') := Advance(sql, d, m, Commits); Passed(sql, empty, list, k, n + 1, d', m')
  {
    if n < k { PassRecorded(sql, empty, list, k, n, d, m); } else { PassNew(sql, empty, list, k, n, d, m); }
  }

  lemma {:induction false} EachStep<S>(sql: Sql<S>, d: Db<S>, m: Migrator, n: nat, inv: (nat, Db<S>, Migrator) -> bool)
    requires inv(0, d, m)
    requires forall i: nat, d1, m1 :: i < n && inv(i, d1, m1) ==>
               inv(i + 1, Advance(sql, d1, m1, Commits).0, Advance(sql, d1, m1, Commits).1)
    ensures var (d', m') := Iterate(sql, d, m, AllCommit, n); inv(n, d', m')
  {
    if n > 0 {
      EachStep(sql, d, m, n - 1, inv);
      var (d1, m1) := Iterate(sql, d, m, AllCommit, n - 1);
      assert inv(n - 1, d1, m1) && Iterate(sql, d, m, AllCommit, n) == Advance(sql, d1, m1, Commits);
    }
  }

  lemma PicksUp<S>(sql: Sql<S>, empty: S, list: seq<string>, k: nat, d: Db<S>, m: Migrator)
    requires NoDup(list) && k <= |list| && Fold(sql, empty, list).Some?
    requires Passed(sql, empty, list, k, 0, d, m)
    ensures var (d', m') := Iterate(sql, d, m, AllCommit, |list|); Passed(sql, empty, list, k, |list|, d', m')
  {
    var inv := (i: nat, d1: Db<S>, m1: Migrator) => i <= |list| && Passed(sql, empty, list, k, i, d1, m1);
    forall i: nat, d1, m1 | i < |list| && inv(i, d1, m1)
      ensures inv(i + 1, Advance(sql, d1, m1, Commits).0, Advance(sql, d1, m1, Commits).1)
    {
      PassOne(sql, empty, list, k, i, d1, m1);
    }
    EachStep(sql, d, m, |list|, inv);
  }

  /** One undisturbed run from any recorded prefix. */
  lemma OneRun<S>(sql: Sql<S>, empty: S, entries: seq<string>, d: Db<S>)
    requires NoDup(Pending(entries)) && Fold(sql, empty, Pending(entries)).Some?
    requires d.versions <= Pending(entries) && Fold(sql, empty, d.versions) == Some(d.schema)
    ensures var list := Pending(entries);
            var (d', m') := Iterate(sql, d, Select(d, Fresh(entries)), AllCommit, |list| + 1);
            && m'.status.Finished? && m'.applied == list[|d.versions|..]
            && d' == Db(Fold(sql, empty, list).value, list)
  {
    var list, k := Pending(entries), |d.versions|;
    assert d.versions == list[..k] && list[..|list|] == list && list[k..|list|] == list[k..];
    assert k == 0 ==> list[0..0] == [];
    PicksUp(sql, empty, list, k, d, Select(d, Fresh(entries)));
  }

  /** Resuming equals not having been interrupted: from the state that any earlier history left, one
      undisturbed run finishes, applies exactly the rest of the list, and leaves the schema that a single
      run over the whole list leaves. */
  lemma ResumedEqualsUninterrupted<S>(sql: Sql<S>, empty: S, entries: seq<string>, acts: seq<Act>)
    requires NoDup(entries) && SameDirectory(entries, acts) && Fold(sql, empty, Pending(entries)).Some?
    ensures var list := Pending(entries);
            var d := History(sql, World(Db(empty, []), []), acts).db;
            var (d', m') := Iterate(sql, d, Select(d, Fresh(entries)), AllCommit, |list| + 1);
            && m'.status.Finished? && |d.versions| <= |list| && m'.applied == list[|d.versions|..]
            && d' == Iterate(sql, Db(empty, []), Select(Db(empty, []), Fresh(entries)), AllCommit, |list| + 1).0
  {
    Resume(sql, empty, entries, acts);
    PendingSorted(entries);
    AscendingNoDup(Pending(entries));
    OneRun(sql, empty, entries, History(sql, World(Db(empty, []), []), acts).db);
    OneRun(sql, empty, entries, Db(empty, []));
  }
}

/** The SQLite schema versions and the walk from any of them to the current one. */
module SQLiteVersions {
  import opened Prelude
  import opened LegacyMigration

  const CURRENT := 4

  const ATTACHMENTS := "conversation_share_attachments"
  const RESOURCES := "conversation_share_resources"
  const CLAIMS := "conversation_share_claims"
  const DEVICES := "desktop_devices"

  const REQUIRED: set<string> := {
    "admin_users", "admin_sessions", "tunnel_tokens", "routes",
    DEVICES, "desktop_webapps", "agent_sessions", "desktop_sessions",
    "events", "conversation_shares", "conversation_share_access", "traffic_events",
    RESOURCES, CLAIMS }

  /** A database file: version, tables, and whether the device table has its revocation column.
      `tables` leaves out the legacy attachments table; `legacy` says whether that one exists. */
  datatype Schema = Schema(version: int, tables: set<string>, legacy: bool, revocation: bool)

  predicate Complete(s: Schema) {
    s.version == CURRENT && REQUIRED <= s.tables && s.revocation
  }

  predicate Sound(s: Schema) {
    ATTACHMENTS !in s.tables && (s.version == 2 ==> s.legacy)
  }

  // ---------------------------------------------------------------- one round, undisturbed

  datatype Round = Stop(schema: Schema, ok: bool) | Again(schema: Schema)

  /** Adding the column, then checking the schema; on an error everything is rolled back. */
  function AddRevocation(before: Schema, s: Schema): Round {
    var added := s.(revocation := true, version := CURRENT);
    if DEVICES in s.tables && !s.revocation && REQUIRED <= s.tables then Stop(added, true) else Stop(before, false)
  }

  /** One call up to its return or its call of itself. `placed`: the legacy migration succeeds. */
  function OneRound(s: Schema, placed: bool): Round {
    if s.version == 0 then
      if s.tables == {} && !s.legacy then Stop(Schema(CURRENT, REQUIRED, false, true), true) else Stop(s, false)
    else if s.version == 1 then
      if RESOURCES in s.tables || CLAIMS in s.tables then Stop(s, false)
      else AddRevocation(s, s.(tables := s.tables + {RESOURCES, CLAIMS}))
    else if s.version == 2 then
      var created := s.(tables := s.tables + {RESOURCES});
      if !s.legacy then Again(created)
      else if placed then Again(created.(legacy := false, version := 3))
      else Stop(created, false)
    else if s.version == 3 then AddRevocation(s, s)
    else if s.version == CURRENT then Stop(s, REQUIRED <= s.tables && s.revocation)
    else Stop(s, false)
  }

  /** The outcome within so many rounds, or None if the walk is still going on. */
  function Walk(s: Schema, placed: bool, rounds: nat): Option<Round>
    decreases rounds
  {
    if rounds == 0 then None else
      match OneRound(s, placed)
      case Stop(t, ok) => Some(Stop(t, ok))
      case Again(t) => Walk(t, placed, rounds - 1)
  }

  /** The walk ends exactly if version 2 comes with its legacy table, and then within two rounds.
      Version 2 without that table calls itself without end: nothing raises the version. */
  lemma {:induction false} WalkEnds(s: Schema, placed: bool, rounds: nat)
    ensures Walk(s, placed, rounds).Some? <==>
            !(s.version == 2 && !s.legacy) && rounds >= if s.version == 2 && placed then 2 else 1
    decreases rounds
  {
    if rounds > 0 && s.version == 2 {
      var t := OneRound(s, placed);
      if t.Again? {
        WalkEnds(t.schema, placed, rounds - 1);
      }
    }
  }

  /** A database file on which the recursion does not end. */
  lemma EndlessWalk(placed: bool, rounds: nat)
    ensures Walk(Schema(2, REQUIRED, false, false), placed, rounds).None?
  {
    WalkEnds(Schema(2, REQUIRED, false, false), placed, rounds);
  }

  /** What a file must look like for the walk to reach the current version. */
  predicate Upgradable(s: Schema, placed: bool) {
    match s.version
    case 0 => s.tables == {} && !s.legacy
    case 1 => REQUIRED - s.tables == {RESOURCES, CLAIMS} && !s.revocation
    case 2 => s.legacy && placed && REQUIRED - {RESOURCES} <= s.tables && !s.revocation
    case 3 => REQUIRED <= s.tables && !s.revocation
    case 4 => REQUIRED <= s.tables && s.revocation
    case _ => false
  }

  /** A walk that ends well ends at the complete current schema, and it ends well exactly from the
      upgradable files. A walk that ends badly leaves the version and the device table alone,
      unless it was cut between its two rounds. */
  lemma WalkResult(s: Schema, placed: bool)
    requires Sound(s)
    ensures Walk(s, placed, 2).Some?
    ensures var end := Walk(s, placed, 2).value;
            && end.Stop? && Sound(end.schema)
            && (end.ok <==> Upgradable(s, placed))
            && (end.ok ==> Complete(end.schema))
            && (!end.ok ==> end.schema.version in {s.version, 3} && end.schema.revocation == s.revocation)
  {
    WalkEnds(s, placed, 2);
    assert DEVICES in REQUIRED;
    if s.version == 1 {
      assert REQUIRED <= s.tables + {RESOURCES, CLAIMS} && RESOURCES !in s.tables && CLAIMS !in s.tables
             <==> REQUIRED - s.tables == {RESOURCES, CLAIMS};
    }
    if s.version == 2 {
      var t := OneRound(s, placed).schema;
      assert Walk(s, placed, 2) == if OneRound(s, placed).Again? then Walk(t, placed, 1) else Some(OneRound(s, placed));
      assert REQUIRED <= s.tables + {RESOURCES} <==> REQUIRED - {RESOURCES} <= s.tables;
    }
  }

  lemma SecondRound(s: Schema, t: Schema)
    requires Sound(s) && s.version == 2 && OneRound(s, true) == Again(t)
    ensures Walk(s, true, 2) == Walk(t, true, 1)
    ensures Upgradable(s, true) <==> Upgradable(t, true)
    ensures forall placed :: Walk(t, placed, 2) == Walk(t, true, 1)
  {
    assert REQUIRED <= s.tables + {RESOURCES} <==> REQUIRED - {RESOURCES} <= s.tables;
  }

  // ---------------------------------------------------------------- the walk itself

  class SQLiteFile {
    var tables: set<string>
    var revocation: bool
    const migration: Migration

    function Shape(): Schema reads this, migration {
      Schema(migration.version, tables, migration.legacy.Some?, revocation)
    }

    ghost predicate Valid() reads this, migration {
      migration.Valid() && migration.sqlite && Sound(Shape())
    }

    constructor (tables: set<string>, revocation: bool, migration: Migration)
      requires migration.Valid() && migration.sqlite
      requires Sound(Schema(migration.version, tables, migration.legacy.Some?, revocation))
      ensures Valid() && this.migration == migration
      ensures Shape() == Schema(migration.version, tables, migration.legacy.Some?, revocation)
    {
      this.tables, this.revocation, this.migration := tables, revocation, migration;
    }

    /** Every step may fail or be the last; a transaction shows only once its commit has worked.
        However it ends, version 2 still comes with its legacy table, so the next start ends too. */
    method MigrateSQLite(configured: bool, now: int) returns (r: Outcome, ghost read: nat)
      requires Valid()
      modifies this, migration
      ensures Valid()
      ensures r.Done? ==> Complete(Shape()) && Upgradable(old(Shape()), true)
      ensures Progress(old(migration.View()), migration.View(), read, true, migration.sha)
      ensures revocation != old(revocation) ==> migration.version == CURRENT
      ensures old(migration.Calm()) ==>
                var placed := Migratable(ReadPart(old(migration.legacy), read), configured, migration.sha);
                Walk(old(Shape()), placed, 2) == Some(Stop(Shape(), r.Done?))
      decreases if migration.version == 2 then 1 else 0, 1
    {
      WalkResult(Shape(), true);
      read := 0;
      var o := migration.Next();
      if !o.Works? { return Stopped(o), read; }
      match migration.version {
        case 0 =>
          if tables != {} || migration.legacy.Some? { return Failed, read; }
          r := Commit(REQUIRED, true, CURRENT);
        case 1 =>
          if RESOURCES in tables || CLAIMS in tables { return Failed, read; }
          r := MigrateDesktopRevocation(tables + {RESOURCES, CLAIMS});
        case 2 =>
          r, read := MigrateResources(configured, now);
        case 3 =>
          r := MigrateDesktopRevocation(tables);
        case 4 =>
          if !(REQUIRED <= tables && revocation) { return Failed, read; }
          r := Commit(tables, revocation, CURRENT);
        case _ =>
          return Failed, read;
      }
    }

    /** The way from version 2: create the table, move the attachments, start over. */
    method MigrateResources(configured: bool, now: int) returns (r: Outcome, ghost read: nat)
      requires Valid() && migration.version == 2
      modifies this, migration
      ensures Valid()
      ensures r.Done? ==> Complete(Shape()) && Upgradable(old(Shape()), true)
      ensures Progress(old(migration.View()), migration.View(), read, true, migration.sha)
      ensures revocation != old(revocation) ==> migration.version == CURRENT
      ensures old(migration.Calm()) ==>
                var placed := Migratable(ReadPart(old(migration.legacy), read), configured, migration.sha);
                Walk(old(Shape()), placed, 2) == Some(Stop(Shape(), r.Done?))
      decreases 1, 0
    {
      ghost var before := Shape();
      read := 0;
      r := Commit(tables + {RESOURCES}, revocation, 2);
      if !r.Done? { return r, read; }
      r, read := migration.Migrate(configured, now);
      if !r.Done? { return r, read; }
      ghost var middle := Shape();
      assert OneRound(before, true) == Again(middle);
      SecondRound(before, middle);
      ghost var nothing;
      r, nothing := MigrateSQLite(configured, now);
    }

    method MigrateDesktopRevocation(created: set<string>) returns (r: Outcome)
      modifies this, migration`version, migration`tick
      ensures r.Done? <==>
                && old(migration.outages(migration.tick)).Works?
                && DEVICES in created && !old(revocation) && REQUIRED <= created
      ensures r.Done? ==> Shape() == Schema(CURRENT, created, migration.legacy.Some?, true)
      ensures !r.Done? ==> Shape() == old(Shape())
    {
      if DEVICES !in created || revocation || !(REQUIRED <= created) {
        return Failed;
      }
      r := Commit(created, true, CURRENT);
    }

    method Commit(tables: set<string>, revocation: bool, version: int) returns (r: Outcome)
      modifies this, migration`version, migration`tick
      ensures r.Done? <==> old(migration.outages(migration.tick)).Works?
      ensures r.Done? ==> Shape() == Schema(version, tables, migration.legacy.Some?, revocation)
      ensures !r.Done? ==> Shape() == old(Shape())
    {
      var o := migration.Next();
      if o.Works? {
        this.tables, this.revocation, migration.version := tables, revocation, version;
      }
      return Stopped(o);
    }
  }
}

/** Moving conversation-share attachments out of a legacy table into files and metadata rows.

    The process can die at any step, and any step can fail: `outages` says what happens at the n-th
    one. The read of the table can also end early without being noticed; `readEnds` says after how many
    rows. What is promised here holds for every such weather, and says which rows a short read loses. */
module LegacyMigration {
  import opened Prelude
  import opened ShareFiles

  datatype Key = Key(share: string, id: string)
  datatype Row = Row(
    share: string, id: string, name: string, mimeType: string, size: int, sha256: string, body: Content)
  datatype Meta = Meta(name: string, mimeType: string, size: int, sha256: string)

  /** `legacy` is the old table in the order of its primary key, or None once it is dropped. */
  datatype State = State(tree: Tree, legacy: Option<seq<Row>>, meta: map<Key, Meta>, version: int)

  /** What befalls one step. A removal that is cut off leaves the files `left` of the directory
      (None: only the empty directory); a write that is cut off leaves the bytes `torn`. */
  datatype Outage =
    | Works
    | Fails(left: Option<set<string>>)
    | Dies(left: Option<set<string>>, torn: Content)

  datatype Outcome = Done | Failed | Died

  function KeyOf(row: Row): Key { Key(row.share, row.id) }

  function MetaOf(row: Row): Meta { Meta(row.name, row.mimeType, row.size, Lower(row.sha256)) }

  predicate Intact(row: Row, sha: Content -> string) {
    row.size == |row.body| && EqualFold(row.sha256, sha(row.body))
  }

  predicate AllIntact(rows: seq<Row>, sha: Content -> string) {
    forall row :: row in rows ==> Intact(row, sha)
  }

  predicate DistinctKeys(rows: seq<Row>) {
    forall i, j :: 0 <= i < j < |rows| ==> KeyOf(rows[i]) != KeyOf(rows[j])
  }

  ghost predicate HexLower(sha: Content -> string) {
    forall body: Content :: Lower(sha(body)) == sha(body)
  }

  /** The row's bytes are in the share directory, with the row's size and hash. */
  predicate Stored(t: Tree, row: Row, sha: Content -> string) {
    ControlledId(row.share) && ControlledId(row.id) && Verifies(t, row.share, row.id, row.size, Lower(row.sha256), sha)
  }

  predicate AllStored(t: Tree, rows: seq<Row>, sha: Content -> string) {
    forall row :: row in rows ==> Stored(t, row, sha)
  }

  predicate Migrated(s: State, row: Row, sha: Content -> string) {
    Stored(s.tree, row, sha) && Get(s.meta, KeyOf(row)) == Some(MetaOf(row))
  }

  // ---------------------------------------------------------------- metadata rows

  /** An insert that ignores a key already present. */
  function InsertIgnore(meta: map<Key, Meta>, row: Row): map<Key, Meta> {
    if KeyOf(row) in meta then meta else meta[KeyOf(row) := MetaOf(row)]
  }

  function InsertAll(meta: map<Key, Meta>, rows: seq<Row>): map<Key, Meta> {
    if rows == [] then meta else InsertIgnore(InsertAll(meta, rows[..|rows| - 1]), rows[|rows| - 1])
  }

  function KeysOf(rows: seq<Row>): set<Key> { set row | row in rows :: KeyOf(row) }

  lemma {:induction false} InsertAllKeys(meta: map<Key, Meta>, rows: seq<Row>)
    ensures InsertAll(meta, rows).Keys == meta.Keys + KeysOf(rows)
  {
    if rows == [] {
      assert KeysOf(rows) == {};
    } else {
      var front, last := rows[..|rows| - 1], rows[|rows| - 1];
      InsertAllKeys(meta, front);
      assert rows == front + [last];
      assert KeysOf(rows) == KeysOf(front) + {KeyOf(last)};
    }
  }

  lemma {:induction false} InsertAllAt(meta: map<Key, Meta>, rows: seq<Row>)
    requires DistinctKeys(rows)
    ensures InsertAll(meta, rows).Keys == meta.Keys + KeysOf(rows)
    ensures forall k :: k in meta ==> InsertAll(meta, rows)[k] == meta[k]
    ensures forall row :: row in rows && KeyOf(row) !in meta ==> InsertAll(meta, rows)[KeyOf(row)] == MetaOf(row)
  {
    InsertAllKeys(meta, rows);
    if rows != [] {
      var front, last := rows[..|rows| - 1], rows[|rows| - 1];
      InsertAllAt(meta, front);
      var before := InsertAll(meta, front);
      forall row | row in rows && KeyOf(row) !in meta
        ensures InsertAll(meta, rows)[KeyOf(row)] == MetaOf(row)
      {
        LastKeyIsNew(rows, row);
        assert row in front ==> KeyOf(row) in KeysOf(front);
        assert row == last ==> KeyOf(last) !in before;
      }
    }
  }

  lemma LastKeyIsNew(rows: seq<Row>, row: Row)
    requires DistinctKeys(rows) && row in rows
    ensures var front, last := rows[..|rows| - 1], rows[|rows| - 1];
            && (row in front || row == last)
            && (row in front ==> KeyOf(row) != KeyOf(last))
            && KeyOf(last) !in KeysOf(front)
  {
    var front, last := rows[..|rows| - 1], rows[|rows| - 1];
    assert rows == front + [last];
  }

  /** Repeating the inserts, as a second run after the commit does, changes nothing. */
  lemma {:induction false} InsertsAreIdempotent(meta: map<Key, Meta>, rows: seq<Row>, prefix: seq<Row>)
    requires DistinctKeys(rows) && prefix <= rows
    ensures InsertAll(InsertAll(meta, rows), prefix) == InsertAll(meta, rows)
  {
    if prefix != [] {
      var front := prefix[..|prefix| - 1];
      InsertsAreIdempotent(meta, rows, front);
      InsertAllAt(meta, rows);
      assert prefix[|prefix| - 1] == rows[|prefix| - 1];
    }
  }

  /** Two rounds of inserts from the front of the table come to the longer one. */
  lemma {:induction false} InsertsJoin(meta: map<Key, Meta>, rows: seq<Row>, m: nat, n: nat)
    requires DistinctKeys(rows) && m <= |rows| && n <= |rows|
    ensures InsertAll(InsertAll(meta, rows[..m]), rows[..n]) == InsertAll(meta, rows[..if m < n then n else m])
    decreases n
  {
    if n <= m {
      InsertsAreIdempotent(meta, rows[..m], rows[..n]);
    } else {
      InsertsJoin(meta, rows, m, n - 1);
      assert rows[..n][..n - 1] == rows[..n - 1];
    }
  }

  /** The metadata row under the legacy row's key says what the legacy row says: its name, its type, and
      the length and the hash of its bytes. */
  predicate Describes(meta: map<Key, Meta>, row: Row, sha: Content -> string) {
    && Key(row.share, row.id) in meta
    && var m := meta[Key(row.share, row.id)];
       m.name == row.name && m.mimeType == row.mimeType && m.size == |row.body| && m.sha256 == sha(row.body)
  }

  /** Inserting intact rows describes each whose key was free, and changes no row that was there. */
  lemma InsertedIsDescribed(meta: map<Key, Meta>, rows: seq<Row>, sha: Content -> string)
    requires HexLower(sha) && DistinctKeys(rows) && AllIntact(rows, sha)
    ensures forall row <- rows :: Key(row.share, row.id) !in meta ==> Describes(InsertAll(meta, rows), row, sha)
    ensures forall key <- meta :: Get(InsertAll(meta, rows), key) == Some(meta[key])
  {
    InsertAllAt(meta, rows);
  }

  // ---------------------------------------------------------------- what one run may do

  ghost predicate Untouched(a: Tree, b: Tree, shares: set<string>) {
    && (forall share :: share !in shares ==> Get(b.shares, share) == Get(a.shares, share))
    && (forall stage :: stage in a.staging ==> Get(b.staging, stage) == Some(a.staging[stage]))
  }

  function SharesOf(rows: seq<Row>): set<string> { set row | row in rows :: row.share }

  function IdsOf(rows: seq<Row>, share: string): set<string> {
    set row | row in rows && row.share == share :: row.id
  }

  predicate KeepsDir(a: Tree, b: Tree, share: string) { Get(b.shares, share) == Get(a.shares, share) }

  /** The directory is as before, or was written anew with the files of these rows and no other. */
  predicate KeptOrReplaced(a: Tree, b: Tree, rows: seq<Row>, share: string) {
    || KeepsDir(a, b, share)
    || (&& share in b.shares && b.shares[share].resources.Some?
        && b.shares[share].resources.value.Keys == IdsOf(rows, share))
  }

  predicate Filled(a: State, b: State, rows: seq<Row>, sha: Content -> string) {
    && b.meta == InsertAll(a.meta, rows) && AllStored(b.tree, rows, sha) && AllIntact(rows, sha)
    && forall share <- SharesOf(rows) :: KeptOrReplaced(a.tree, b.tree, rows, share)
  }

  /** The ways a run that read `read` rows can leave the data, however it ends. With the SQLite ending
      the metadata rows and the drop come together; with the MySQL ending the rows come before the
      drop. The drop takes the whole table, whatever was read. */
  ghost predicate Progress(a: State, b: State, read: nat, sqlite: bool, sha: Content -> string) {
    if a.legacy.None? then b.tree == a.tree && b.legacy.None? && b.meta == a.meta else
      && read <= |a.legacy.value|
      && var rows := a.legacy.value[..read];
      && Untouched(a.tree, b.tree, SharesOf(rows))
      && (|| (b.legacy == a.legacy && b.meta == a.meta)
          || (!sqlite && b.legacy == a.legacy && Filled(a, b, rows, sha))
          || (b.legacy.None? && Filled(a, b, rows, sha)))
  }

  /** No metadata row contradicts a legacy row of the same key. */
  predicate Agrees(meta: map<Key, Meta>, rows: seq<Row>) {
    forall row :: row in rows && KeyOf(row) in meta ==> meta[KeyOf(row)] == MetaOf(row)
  }

  /** Run i leads from state i to the next and reads so many rows. It starts with the legacy table. */
  ghost predicate IsRun(states: seq<State>, counts: seq<nat>, sqlite: bool, sha: Content -> string) {
    && |states| == |counts| + 1 && states[0].legacy.Some? && DistinctKeys(states[0].legacy.value)
    && forall i :: 0 <= i < |counts| ==> Progress(states[i], states[i + 1], counts[i], sqlite, sha)
  }

  lemma RunSoFar(states: seq<State>, counts: seq<nat>, k: nat, sqlite: bool, sha: Content -> string)
    requires IsRun(states, counts, sqlite, sha) && k <= |counts|
    ensures IsRun(states[..k + 1], counts[..k], sqlite, sha)
  {
  }

  /** Over any number of cut-off, failed and repeated runs the metadata are the old ones plus the first
      rows of the table up to some point, and the table is either whole or gone. */
  lemma {:induction false} ManyRuns(states: seq<State>, counts: seq<nat>, sqlite: bool, sha: Content -> string)
    returns (m: nat)
    requires IsRun(states, counts, sqlite, sha)
    ensures var first, last := states[0], states[|counts|];
            && m <= |first.legacy.value| && last.meta == InsertAll(first.meta, first.legacy.value[..m])
            && (last.legacy == first.legacy || last.legacy.None?)
            && (sqlite && last.legacy.Some? ==> m == 0)
            && AllIntact(first.legacy.value[..m], sha)
  {
    var rows := states[0].legacy.value;
    if counts == [] {
      m := 0;
      assert rows[..0] == [];
    } else {
      var n := |counts| - 1;
      RunSoFar(states, counts, n, sqlite, sha);
      m := ManyRuns(states[..n + 1], counts[..n], sqlite, sha);
      var a, b := states[n], states[n + 1];
      assert Progress(a, b, counts[n], sqlite, sha);
      if b.meta != a.meta {
        InsertsJoin(states[0].meta, rows, m, counts[n]);
        m := counts[n];
      } else if sqlite && b.legacy.Some? {
        assert m == 0;
      }
    }
  }

  /** The run that drops the table. */
  predicate Drops(states: seq<State>, k: nat) {
    k + 1 < |states| && states[k].legacy.Some? && states[k + 1].legacy.None?
  }

  /** Once the table is gone nothing changes any more. */
  lemma {:induction false} GoneIsFinal(
    states: seq<State>, counts: seq<nat>, k: nat, j: nat, sqlite: bool, sha: Content -> string)
    requires IsRun(states, counts, sqlite, sha) && Drops(states, k) && k < j < |states|
    ensures states[j].tree == states[k + 1].tree && states[j].meta == states[k + 1].meta && states[j].legacy.None?
    decreases j
  {
    if j > k + 1 {
      GoneIsFinal(states, counts, k, j - 1, sqlite, sha);
      assert Progress(states[j - 1], states[j], counts[j - 1], sqlite, sha);
    }
  }

  /** When the table is gone, one run dropped it. */
  lemma {:induction false} SomeRunDrops(states: seq<State>, counts: seq<nat>, sqlite: bool, sha: Content -> string)
    returns (k: nat)
    requires IsRun(states, counts, sqlite, sha) && states[|counts|].legacy.None?
    ensures Drops(states, k)
  {
    var n := |counts| - 1;
    if states[n].legacy.Some? {
      k := n;
    } else {
      RunSoFar(states, counts, n, sqlite, sha);
      k := SomeRunDrops(states[..n + 1], counts[..n], sqlite, sha);
    }
  }

  lemma UnreadIsElsewhere(rows: seq<Row>, n: nat, row: Row)
    requires DistinctKeys(rows) && n <= |rows| && row in rows && row !in rows[..n]
    ensures KeyOf(row) !in KeysOf(rows[..n]) && row.id !in IdsOf(rows[..n], row.share)
  {
    var i :| 0 <= i < |rows| && rows[i] == row;
    assert forall j :: 0 <= j < n ==> rows[..n][j] == rows[j];
    forall other | other in rows[..n]
      ensures KeyOf(other) != KeyOf(row)
    {
      var j :| 0 <= j < n && rows[j] == other;
    }
  }

  /** A dropping run, exactly: a row it read is migrated unless another metadata row held its key; a row
      it did not read is migrated only if it was before and the run kept the share's directory. */
  lemma DropIsExact(a: State, b: State, read: nat, sqlite: bool, sha: Content -> string, row: Row)
    requires a.legacy.Some? && DistinctKeys(a.legacy.value) && row in a.legacy.value
    requires Progress(a, b, read, sqlite, sha) && b.legacy.None?
    ensures Migrated(b, row, sha) <==>
              if row in a.legacy.value[..read] then KeyOf(row) in a.meta ==> a.meta[KeyOf(row)] == MetaOf(row)
              else Migrated(a, row, sha) && KeepsDir(a.tree, b.tree, row.share)
  {
    var rows := a.legacy.value[..read];
    InsertAllAt(a.meta, rows);
    if row in rows {
      assert KeyOf(row) in KeysOf(rows);
    } else {
      UnreadIsElsewhere(a.legacy.value, read, row);
      UnreadKeepsItsPlace(a, b, rows, row, sha);
    }
  }

  /** A row that was not read keeps its file only with its directory. */
  lemma UnreadKeepsItsPlace(a: State, b: State, rows: seq<Row>, row: Row, sha: Content -> string)
    requires Untouched(a.tree, b.tree, SharesOf(rows)) && row.id !in IdsOf(rows, row.share)
    requires forall share <- SharesOf(rows) :: KeptOrReplaced(a.tree, b.tree, rows, share)
    ensures Stored(b.tree, row, sha) <==> Stored(a.tree, row, sha) && KeepsDir(a.tree, b.tree, row.share)
  {
    if row.share in SharesOf(rows) && !KeepsDir(a.tree, b.tree, row.share) {
      assert KeptOrReplaced(a.tree, b.tree, rows, row.share);
    }
  }

  /** Over any number of runs, once run k has dropped the table: a row that run read is migrated if and
      only if no other metadata row held its key at the start; a row it did not read is migrated if and
      only if it was before that run and the run kept the share's directory. */
  lemma DroppedMeansMigrated(
    states: seq<State>, counts: seq<nat>, k: nat, sqlite: bool, sha: Content -> string, row: Row)
    requires IsRun(states, counts, sqlite, sha) && Drops(states, k)
    requires row in states[0].legacy.value
    ensures var first, last := states[0], states[|counts|];
            && states[k].legacy == first.legacy && counts[k] <= |first.legacy.value|
            && (Migrated(last, row, sha) <==>
                  if row in first.legacy.value[..counts[k]]
                  then KeyOf(row) in first.meta ==> first.meta[KeyOf(row)] == MetaOf(row)
                  else Migrated(states[k], row, sha) && KeepsDir(states[k].tree, states[k + 1].tree, row.share))
  {
    var rows := states[0].legacy.value;
    RunSoFar(states, counts, k, sqlite, sha);
    var m := ManyRuns(states[..k + 1], counts[..k], sqlite, sha);
    assert Progress(states[k], states[k + 1], counts[k], sqlite, sha);
    DropIsExact(states[k], states[k + 1], counts[k], sqlite, sha, row);
    GoneIsFinal(states, counts, k, |counts|, sqlite, sha);
    InsertedAgrees(states[0].meta, rows, m, row);
  }

  /** Inserts settle nothing about a key that was there, and agree where it was not. */
  lemma InsertedAgrees(meta: map<Key, Meta>, rows: seq<Row>, m: nat, row: Row)
    requires DistinctKeys(rows) && m <= |rows| && row in rows
    ensures var after := InsertAll(meta, rows[..m]);
            (KeyOf(row) in after ==> after[KeyOf(row)] == MetaOf(row))
            <==> (KeyOf(row) in meta ==> meta[KeyOf(row)] == MetaOf(row))
  {
    InsertAllAt(meta, rows[..m]);
    if row !in rows[..m] {
      UnreadIsElsewhere(rows, m, row);
    }
  }

  /** Nothing is lost at any point of any number of runs, if the run that drops the table, should there
      be one, has read it to its end: every legacy row is still in the table, or has both a verifying
      file and its metadata row. */
  lemma NothingIsLost(states: seq<State>, counts: seq<nat>, sqlite: bool, sha: Content -> string, row: Row)
    requires IsRun(states, counts, sqlite, sha)
    requires Agrees(states[0].meta, states[0].legacy.value) && row in states[0].legacy.value
    requires forall k: nat :: Drops(states, k) ==> counts[k] == |states[0].legacy.value|
    ensures var last := states[|counts|];
            (last.legacy.Some? && row in last.legacy.value) || Migrated(last, row, sha)
  {
    var m := ManyRuns(states, counts, sqlite, sha);
    if states[|counts|].legacy.None? {
      var k := SomeRunDrops(states, counts, sqlite, sha);
      DroppedMeansMigrated(states, counts, k, sqlite, sha, row);
      assert states[0].legacy.value[..counts[k]] == states[0].legacy.value;
    }
  }

  /** What the metadata say, at every point of any number of runs: rows that were there stay as they were;
      under a free key of the legacy table there is either no row or one that describes the legacy row;
      and once the table is gone, every row the dropping run read has one. */
  lemma MetadataDescribeTheRows(
    states: seq<State>, counts: seq<nat>, sqlite: bool, sha: Content -> string, row: Row, key: Key)
    requires HexLower(sha) && IsRun(states, counts, sqlite, sha)
    requires row in states[0].legacy.value && Key(row.share, row.id) !in states[0].meta
    ensures var first, last := states[0], states[|counts|];
            && (key in first.meta ==> Get(last.meta, key) == Some(first.meta[key]))
            && (Key(row.share, row.id) in last.meta ==> Describes(last.meta, row, sha))
            && (forall k: nat :: Drops(states, k) && row in first.legacy.value[..Min(counts[k], |first.legacy.value|)]
                  ==> Describes(last.meta, row, sha))
  {
    var rows := states[0].legacy.value;
    var m := ManyRuns(states, counts, sqlite, sha);
    InsertAllAt(states[0].meta, rows[..m]);
    InsertedIsDescribed(states[0].meta, rows[..m], sha);
    if row !in rows[..m] { UnreadIsElsewhere(rows, m, row); }
    forall k: nat | Drops(states, k) && row in rows[..Min(counts[k], |rows|)]
      ensures Key(row.share, row.id) in states[|counts|].meta
    {
      DroppedMeansMigrated(states, counts, k, sqlite, sha, row);
    }
  }

  /** While no legacy row has metadata yet, the condition is on the read alone: the dropping run, over
      any number of runs with the SQLite ending or as a first run with either, leaves every row migrated
      if and only if it read the whole table. */
  lemma AllMigratedIffAllRead(states: seq<State>, counts: seq<nat>, k: nat, sqlite: bool, sha: Content -> string)
    requires IsRun(states, counts, sqlite, sha) && Drops(states, k) && (sqlite || k == 0)
    requires forall row <- states[0].legacy.value :: KeyOf(row) !in states[0].meta
    ensures (forall row <- states[0].legacy.value :: Migrated(states[|counts|], row, sha))
            <==> counts[k] == |states[0].legacy.value|
  {
    var rows := states[0].legacy.value;
    RunSoFar(states, counts, k, sqlite, sha);
    var m := ManyRuns(states[..k + 1], counts[..k], sqlite, sha);
    assert rows[..0] == [];
    assert Progress(states[k], states[k + 1], counts[k], sqlite, sha);
    forall row | row in rows
      ensures Migrated(states[|counts|], row, sha) <==> row in rows[..counts[k]]
    {
      DroppedMeansMigrated(states, counts, k, sqlite, sha, row);
    }
    if counts[k] < |rows| {
      LastIsUnread(rows, counts[k]);
    } else {
      assert rows[..counts[k]] == rows;
    }
  }

  lemma LastIsUnread(rows: seq<Row>, n: nat)
    requires DistinctKeys(rows) && n < |rows|
    ensures rows[n] in rows && rows[n] !in rows[..n]
  {
    assert forall j :: 0 <= j < n ==> KeyOf(rows[j]) != KeyOf(rows[n]);
  }

  /** Such a run: the read of a one-row table fails before its row, and the table is dropped without
      anything being written. */
  lemma UnreadRowIsLost(sqlite: bool, sha: Content -> string) returns (states: seq<State>, row: Row)
    ensures |states| == 2 && IsRun(states, [0], sqlite, sha)
    ensures states[0].legacy == Some([row]) && Intact(row, sha) && states[0].meta == map[]
    ensures states[1].legacy.None? && !Migrated(states[1], row, sha) && states[1].tree == EMPTY
  {
    row := Row("s", "r", "name", "text/plain", 0, sha([]), []);
    states := [State(EMPTY, Some([row]), map[], 2), State(EMPTY, None, map[], if sqlite then 3 else 2)];
    assert [row][..0] == [];
    assert Progress(states[0], states[1], 0, sqlite, sha);
  }

  /** A conflict over a key is met too: a one-row table whose key another metadata row holds is read
      whole and dropped by one run of either ending, its file is in place, and the row is not migrated. */
  lemma ConflictIsMet(sqlite: bool, sha: Content -> string) returns (states: seq<State>, row: Row)
    requires HexLower(sha)
    ensures |states| == 2 && IsRun(states, [1], sqlite, sha)
    ensures states[0].legacy == Some([row]) && Intact(row, sha) && states[1].legacy.None?
    ensures Stored(states[1].tree, row, sha) && !Migrated(states[1], row, sha)
  {
    row := Row("s", "r", "new", "text/plain", 0, sha([]), []);
    var meta := map[KeyOf(row) := Meta("old", "text/plain", 0, Lower(sha([])))];
    var tree := Tree(map[], map["s" := ShareDir(0, Some(map["r" := []]))]);
    assert Lower(sha([])) == sha([]) && ControlledId("s") && ControlledId("r");
    assert [row][..0] == [] && InsertAll(meta, [row]) == meta && [row][..1] == [row];
    assert Stored(tree, row, sha) && "new" != "old";
    states := [State(tree, Some([row]), meta, 2), State(tree, None, meta, if sqlite then 3 else 2)];
    assert Progress(states[0], states[1], 1, sqlite, sha);
  }

  // ---------------------------------------------------------------- the run itself

  /** Rows of one share, all intact. */
  predicate Group(share: string, rows: seq<Row>, sha: Content -> string) {
    && rows != [] && DistinctKeys(rows)
    && forall row :: row in rows ==> row.share == share && Intact(row, sha)
  }

  predicate KeptOrHolds(a: Tree, b: Tree, share: string, rows: seq<Row>) {
    || KeepsDir(a, b, share)
    || (share in b.shares && b.shares[share].resources == Some(FilesOf(rows)))
  }

  predicate Nameable(share: string, rows: seq<Row>) {
    ControlledId(share) && forall row :: row in rows ==> ControlledId(row.id)
  }

  /** `byShare` holds exactly the rows, each under its share. */
  ghost predicate Grouped(rows: seq<Row>, byShare: map<string, seq<Row>>, sha: Content -> string) {
    && (forall share :: share in byShare ==> Group(share, byShare[share], sha))
    && (forall share, row :: share in byShare && row in byShare[share] ==> row in rows)
    && (forall row :: row in rows ==> row.share in byShare && row in byShare[row.share])
  }

  lemma GroupedShares(rows: seq<Row>, byShare: map<string, seq<Row>>, sha: Content -> string)
    requires Grouped(rows, byShare, sha)
    ensures byShare.Keys == SharesOf(rows)
    ensures (forall share :: share in byShare ==> Nameable(share, byShare[share]))
            <==> forall row :: row in rows ==> ControlledId(row.share) && ControlledId(row.id)
  {
    forall share | share in byShare
      ensures share in SharesOf(rows)
    {
      assert byShare[share][0] in rows;
    }
    if forall row :: row in rows ==> ControlledId(row.share) && ControlledId(row.id) {
      forall share | share in byShare
        ensures Nameable(share, byShare[share])
      {
        assert byShare[share][0] in rows;
      }
    }
  }

  function FilesOf(rows: seq<Row>): Files {
    if rows == [] then map[] else FilesOf(rows[..|rows| - 1])[rows[|rows| - 1].id := rows[|rows| - 1].body]
  }

  /** The rows of the table a read got before it ended. */
  function ReadPart(legacy: Option<seq<Row>>, read: nat): Option<seq<Row>> {
    if legacy.None? then None else Some(legacy.value[..Min(read, |legacy.value|)])
  }

  /** The condition under which an undisturbed run succeeds. */
  predicate Migratable(legacy: Option<seq<Row>>, configured: bool, sha: Content -> string) {
    legacy.Some? && legacy.value != [] ==>
      configured &&
      forall row :: row in legacy.value ==> Intact(row, sha) && ControlledId(row.share) && ControlledId(row.id)
  }

  class Migration {
    var tree: Tree
    var legacy: Option<seq<Row>>
    var meta: map<Key, Meta>
    var version: int
    var tick: nat
    const sqlite: bool
    const sha: Content -> string
    const outages: nat -> Outage
    /** After how many rows a read begun at this tick ends, if the table is not shorter. */
    const readEnds: nat -> nat
    const stageIds: nat -> string

    function View(): State reads this { State(tree, legacy, meta, version) }

    ghost predicate Valid() reads this {
      HexLower(sha) && (legacy.Some? ==> DistinctKeys(legacy.value))
    }

    /** Nothing goes wrong but a read that ends early, and stage names are new. */
    ghost predicate Calm() reads this {
      (forall n :: outages(n).Works?) && (forall n :: stageIds(n) !in tree.staging)
    }

    constructor (
      state: State, sqlite: bool, sha: Content -> string,
      outages: nat -> Outage, readEnds: nat -> nat, stageIds: nat -> string)
      requires HexLower(sha) && (state.legacy.Some? ==> DistinctKeys(state.legacy.value))
      ensures Valid() && View() == state && this.sqlite == sqlite && this.sha == sha
      ensures this.outages == outages && this.readEnds == readEnds
    {
      tree, legacy, meta, version, tick := state.tree, state.legacy, state.meta, state.version, 0;
      this.sqlite, this.sha, this.outages, this.readEnds, this.stageIds := sqlite, sha, outages, readEnds, stageIds;
    }

    method Next() returns (o: Outage)
      modifies this`tick
      ensures o == outages(old(tick)) && tick == old(tick) + 1
    {
      o := outages(tick);
      tick := tick + 1;
    }

    /** A run of the migration, cut off wherever the weather says. `read` is how many rows it read. A
        read that ended early is taken for the whole table: even then an undisturbed run succeeds and
        drops it, exactly if what was read can be migrated. */
    method Migrate(configured: bool, now: int) returns (r: Outcome, ghost read: nat)
      requires Valid()
      modifies this
      ensures Valid()
      ensures Progress(old(View()), View(), read, sqlite, sha)
      ensures r.Done? ==> legacy.None?
      // Every row read whose key was free has its own name and type, and the length and hash of its bytes.
      ensures old(legacy).Some? && legacy.None? ==>
                forall row <- old(legacy).value[..read] ::
                  Key(row.share, row.id) !in old(meta) ==> Describes(meta, row, sha)
      ensures forall key <- old(meta) :: Get(meta, key) == Some(old(meta)[key])
      ensures old(legacy).Some? ==> (r.Done? <==> legacy.None?)
      ensures r.Done? && old(legacy).Some? ==> read == Min(readEnds(old(tick) + 1), |old(legacy).value|)
      // With SQLite the version moves to 3 together with the drop; otherwise it stays.
      ensures version == if sqlite && old(legacy).Some? && legacy.None? then 3 else old(version)
      ensures r.Done? ==> tree.staging == old(tree.staging)
      ensures old(Calm()) && old(legacy).Some? ==> read == Min(readEnds(old(tick) + 1), |old(legacy).value|)
      ensures old(Calm()) ==> (r.Done? <==> Migratable(ReadPart(old(legacy), read), configured, sha))
    {
      read := 0;
      var o := Next();
      if !o.Works? { return Stopped(o), read; }
      if legacy.None? { return Done, read; }
      var rows;
      r, rows := ReadRows();
      read := |rows|;
      if !r.Done? { return r, read; }
      r := PlaceRows(rows, configured, now);
      if !r.Done? { return r, read; }
      r := Finish(rows);
    }

    /** The query and its row loop. `Next` answers false after the last row and on an error alike, the
        error is never asked for and closing the rows reports none: a short read ends as a whole one. */
    method ReadRows() returns (r: Outcome, rows: seq<Row>)
      requires legacy.Some?
      modifies this`tick
      ensures |rows| <= |legacy.value| && rows == legacy.value[..|rows|]
      ensures r.Done? ==> |rows| == Min(readEnds(old(tick)), |legacy.value|)
      ensures (forall n :: outages(n).Works?) ==> r.Done?
    {
      rows := [];
      var end := readEnds(tick);
      var o := Next();
      if !o.Works? { return Stopped(o), rows; }
      while |rows| < end && |rows| < |legacy.value|
        invariant |rows| <= end && |rows| <= |legacy.value| && rows == legacy.value[..|rows|]
      {
        o := Next();
        if !o.Works? { return Stopped(o), rows; }
        rows := rows + [legacy.value[|rows|]];
      }
      return Done, rows;
    }

    /** The files of a run; without rows no directory is needed. */
    method PlaceRows(rows: seq<Row>, configured: bool, now: int) returns (r: Outcome)
      requires HexLower(sha) && DistinctKeys(rows)
      modifies this`tree, this`tick
      ensures Untouched(old(tree), tree, SharesOf(rows))
      ensures r.Done? ==> AllStored(tree, rows, sha) && tree.staging == old(tree.staging)
      ensures r.Done? ==> forall share <- SharesOf(rows) :: KeptOrReplaced(old(tree), tree, rows, share)
      ensures r.Done? ==> AllIntact(rows, sha)
      ensures old(Calm()) ==> (r.Done? <==> Migratable(Some(rows), configured, sha))
    {
      if rows == [] { return Done; }
      if !configured { return Failed; }
      var byShare := GroupByShare(rows);
      if byShare.None? { return Failed; }
      var o := Next();
      if !o.Works? { return Stopped(o); }
      GroupedShares(rows, byShare.value, sha);
      r := PlaceAll(byShare.value, now);
      forall share | share in SharesOf(rows)
        ensures FilesOf(byShare.value[share]).Keys == IdsOf(rows, share)
      {
        GroupFiles(rows, byShare.value, share, sha);
      }
    }

    /** Checks every row before anything is changed, and sorts the rows by share. */
    method GroupByShare(rows: seq<Row>) returns (r: Option<map<string, seq<Row>>>)
      requires DistinctKeys(rows)
      ensures r.Some? <==> forall row :: row in rows ==> Intact(row, sha)
      ensures r.Some? ==> Grouped(rows, r.value, sha)
    {
      var byShare: map<string, seq<Row>> := map[];
      for i := 0 to |rows|
        invariant Grouped(rows[..i], byShare, sha)
        invariant forall row :: row in rows[..i] ==> Intact(row, sha)
      {
        var row := rows[i];
        if row.size != |row.body| || !EqualFold(row.sha256, sha(row.body)) {
          assert row in rows && !Intact(row, sha);
          return None;
        }
        assert rows[..i + 1] == rows[..i] + [row];
        assert forall other :: other in rows[..i] ==> KeyOf(other) != KeyOf(row);
        byShare := byShare[row.share := Get(byShare, row.share).GetOr([]) + [row]];
      }
      assert rows[..|rows|] == rows;
      return Some(byShare);
    }

    /** Places the shares one after another, in any order. */
    method PlaceAll(byShare: map<string, seq<Row>>, now: int) returns (r: Outcome)
      requires HexLower(sha) && forall share :: share in byShare ==> Group(share, byShare[share], sha)
      modifies this`tree, this`tick
      ensures Untouched(old(tree), tree, byShare.Keys)
      ensures r.Done? ==> forall share :: share in byShare ==> AllStored(tree, byShare[share], sha)
      ensures r.Done? ==> forall share <- byShare :: KeptOrHolds(old(tree), tree, share, byShare[share])
      ensures r.Done? ==> tree.staging == old(tree.staging)
      ensures old(Calm()) ==> (r.Done? <==> forall share :: share in byShare ==> Nameable(share, byShare[share]))
    {
      var shareIds := byShare.Keys;
      while shareIds != {}
        invariant shareIds <= byShare.Keys
        invariant Untouched(old(tree), tree, byShare.Keys) && tree.staging == old(tree.staging)
        invariant PlacedBut(old(tree), tree, byShare, shareIds, sha)
        invariant old(Calm()) ==> forall share :: share in byShare.Keys - shareIds ==> Nameable(share, byShare[share])
      {
        var share :| share in shareIds;
        ghost var before := tree;
        r := PlaceShare(share, byShare[share], now);
        if !r.Done? { return r; }
        PlacedOneMore(old(tree), before, tree, byShare, shareIds, share, sha);
        shareIds := shareIds - {share};
      }
      r := Done;
    }

    /** Keeps a share whose files all verify; otherwise replaces its directory. */
    method PlaceShare(share: string, rows: seq<Row>, now: int) returns (r: Outcome)
      requires HexLower(sha) && Group(share, rows, sha)
      modifies this`tree, this`tick
      ensures Untouched(old(tree), tree, {share})
      ensures r.Done? ==> AllStored(tree, rows, sha) && tree.staging == old(tree.staging)
      // What is in place already is not written again; what is written is the rows' bodies and no more.
      ensures old(Calm()) && AllStored(old(tree), rows, sha) ==> tree == old(tree)
      ensures r.Done? && !AllStored(old(tree), rows, sha) ==>
                Get(tree.shares, share) == Some(ShareDir(now, Some(FilesOf(rows))))
      ensures r.Done? ==> KeptOrHolds(old(tree), tree, share, rows)
      ensures old(Calm()) ==> (r.Done? <==> Nameable(share, rows))
    {
      var complete, i := true, 0;
      while complete && i < |rows|
        invariant 0 <= i <= |rows|
        invariant complete ==> AllStored(tree, rows[..i], sha)
        invariant old(Calm()) && AllStored(old(tree), rows, sha) ==> complete
        invariant tree == old(tree)
      {
        var o := Next();
        if o.Dies? { return Died; }
        complete := o.Works? && Stored(tree, rows[i], sha);
        i := i + 1;
      }
      if complete {
        assert rows[..i] == rows;
        assert rows[0] in rows;
        return Done;
      }
      r := Delete(share, now);
      if !r.Done? { return r; }
      var o := Next();
      if !o.Works? { return Stopped(o); }
      var stage := stageIds(tick);
      if stage in tree.staging { return Failed; }
      tree := tree.(staging := tree.staging[stage := StageDir(now, map[])]);
      r := Fill(stage, rows, now);
      if r.Done? {
        r := Commit(stage, share, now);
      }
      if r.Failed? {
        Abort(stage);
      }
      RestIsKept(old(tree.staging), tree.staging, stage);
      if r.Done? {
        FilledIsStored(tree, share, rows, now, sha);
      }
    }

    /** Removing a directory that is not there, or a name no directory can have, is no error. */
    method Delete(share: string, now: int) returns (r: Outcome)
      modifies this`tree, this`tick
      ensures Untouched(old(tree), tree, {share}) && tree.staging == old(tree.staging)
      ensures r.Done? && ControlledId(share) ==> share !in tree.shares
      ensures outages(old(tick)).Works? ==> r.Done?
    {
      var o := Next();
      if !ControlledId(share) { return Done; }
      var cut := if o.Works? then None else Some(Cut(o.left, now));
      tree := tree.(shares := RemoveShare(tree.shares, share, cut));
      return Stopped(o);
    }

    method Fill(stage: string, rows: seq<Row>, now: int) returns (r: Outcome)
      requires stage in tree.staging && tree.staging[stage].files == map[]
      modifies this`tree, this`tick
      ensures tree.shares == old(tree.shares) && stage in tree.staging
      ensures tree.staging - {stage} == old(tree.staging) - {stage}
      ensures r.Done? ==> tree.staging[stage].files == FilesOf(rows)
      ensures r.Done? ==> forall row :: row in rows ==> ControlledId(row.id)
      ensures (forall n :: outages(n).Works?) && (forall row :: row in rows ==> ControlledId(row.id)) ==> r.Done?
    {
      for i := 0 to |rows|
        invariant tree.shares == old(tree.shares) && stage in tree.staging
        invariant tree.staging - {stage} == old(tree.staging) - {stage}
        invariant tree.staging[stage].files == FilesOf(rows[..i])
        invariant forall row :: row in rows[..i] ==> ControlledId(row.id)
      {
        var row := rows[i];
        if !ControlledId(row.id) { return Failed; }
        var o := Next();
        var files := tree.staging[stage].files;
        if o.Fails? { return Failed; }
        var body := if o.Dies? then o.torn else row.body;
        assert rows[..i + 1][..i] == rows[..i];
        tree := tree.(staging := tree.staging[stage := StageDir(now, files[row.id := body])]);
        if o.Dies? { return Died; }
      }
      assert rows[..|rows|] == rows;
      return Done;
    }

    /** Makes the share directory, syncs it and the stage, renames the one into the other and syncs
        again. When only the last sync fails the files are in place although an error is returned. */
    method Commit(stage: string, share: string, now: int) returns (r: Outcome)
      requires stage in tree.staging
      modifies this`tree, this`tick
      ensures forall other :: other != share ==> Get(tree.shares, other) == Get(old(tree.shares), other)
      ensures tree.staging - {stage} == old(tree.staging) - {stage}
      ensures r.Done? ==> ControlledId(share) && tree.staging == old(tree.staging) - {stage}
      ensures r.Done? ==> Get(tree.shares, share) == Some(ShareDir(now, Some(old(tree.staging)[stage].files)))
      ensures (forall n :: outages(n).Works?) && ControlledId(share) && share !in old(tree.shares) ==> r.Done?
      // Unless the process dies, this is the commit of a stage with one failing step or none.
      ensures !r.Died? && ControlledId(share) ==>
                exists fails: Option<CommitStep> ::
                  (r.Done? ==> fails.None?) && tree == Committed(old(tree), stage, share, now, fails)
    {
      if !ControlledId(share) { return Failed; }
      ghost var start := tree;
      var o := Next();
      if !o.Works? || share in tree.shares {
        assert tree == Committed(start, stage, share, now, Some(MakeDir));
        return if o.Works? then Failed else Stopped(o);
      }
      var before := tree.shares;
      tree := tree.(shares := before[share := ShareDir(now, None)]);
      for step := 0 to 3
        invariant tree.shares == before[share := ShareDir(now, None)] && tree.staging == old(tree.staging)
      {
        o := Next();
        if !o.Works? {
          if o.Fails? {
            tree := tree.(shares := before);
            assert tree == Committed(start, stage, share, now, Some(Rename));
          }
          return Stopped(o);
        }
      }
      tree := RenameStage(tree, stage, share, now).value;
      o := Next();
      assert tree == Committed(start, stage, share, now, if o.Works? then None else Some(SyncParent));
      return Stopped(o);
    }

    /** Removes the stage if it is still there; a removal that fails is ignored. */
    method Abort(stage: string)
      modifies this`tree, this`tick
      ensures tree.shares == old(tree.shares) && tree.staging - {stage} == old(tree.staging) - {stage}
    {
      var o := Next();
      if o.Works? {
        tree := tree.(staging := tree.staging - {stage});
      }
    }

    /** The closing transaction over the rows that were read; the table dropped may hold more. Nothing of
        it shows unless its commit works. */
    method Finish(rows: seq<Row>) returns (r: Outcome)
      requires legacy.Some?
      modifies this`legacy, this`meta, this`version, this`tick
      ensures legacy.Some? ==> legacy == old(legacy) && version == old(version)
      ensures legacy.None? ==> version == if sqlite then 3 else old(version)
      ensures meta == InsertAll(old(meta), rows) || (meta == old(meta) && legacy.Some?)
      ensures sqlite && legacy.Some? ==> meta == old(meta)
      ensures r.Done? <==> legacy.None?
      ensures (forall n :: outages(n).Works?) ==> r.Done?
      ensures HexLower(sha) && DistinctKeys(rows) && AllIntact(rows, sha) ==>
                && (forall key <- old(meta) :: Get(meta, key) == Some(old(meta)[key]))
                && (legacy.None? || meta != old(meta) ==>
                      forall row <- rows :: Key(row.share, row.id) !in old(meta) ==> Describes(meta, row, sha))
    {
      if HexLower(sha) && DistinctKeys(rows) && AllIntact(rows, sha) { InsertedIsDescribed(meta, rows, sha); }
      var o := Next();
      if !o.Works? { return Stopped(o); }
      var inserted := meta;
      for i := 0 to |rows|
        invariant inserted == InsertAll(old(meta), rows[..i])
        invariant meta == old(meta) && legacy == old(legacy) && version == old(version)
      {
        o := Next();
        if !o.Works? { return Stopped(o); }
        assert rows[..i + 1][..i] == rows[..i];
        inserted := InsertIgnore(inserted, rows[i]);
      }
      assert rows[..|rows|] == rows;
      o := Next();
      if !o.Works? { return Stopped(o); }
      meta := inserted;
      if sqlite {
        legacy, version := None, 3;
        return Done;
      }
      o := Next();
      if !o.Works? { return Stopped(o); }
      legacy := None;
      return Done;
    }
  }

  function Stopped(o: Outage): Outcome {
    match o
    case Works => Done
    case Fails(_) => Failed
    case Dies(_, _) => Died
  }

  // ---------------------------------------------------------------- helpers

  /** All shares but the pending ones are placed, and the directories of those are as they were. */
  ghost predicate PlacedBut(
    a: Tree, b: Tree, byShare: map<string, seq<Row>>, pending: set<string>, sha: Content -> string)
  {
    && (forall share <- byShare :: share !in pending ==>
          AllStored(b, byShare[share], sha) && KeptOrHolds(a, b, share, byShare[share]))
    && (forall share <- pending :: KeepsDir(a, b, share))
  }

  lemma PlacedOneMore(
    a: Tree, before: Tree, after: Tree, byShare: map<string, seq<Row>>, pending: set<string>, share: string,
    sha: Content -> string)
    requires PlacedBut(a, before, byShare, pending, sha) && share in pending && share in byShare
    requires Untouched(before, after, {share}) && AllStored(after, byShare[share], sha)
    requires KeptOrHolds(before, after, share, byShare[share])
    requires forall other <- byShare :: forall row <- byShare[other] :: row.share == other
    ensures PlacedBut(a, after, byShare, pending - {share}, sha)
  {
    forall other | other in byShare && other !in pending - {share}
      ensures AllStored(after, byShare[other], sha) && KeptOrHolds(a, after, other, byShare[other])
    {
      if other != share { StoredElsewhere(before, after, share, byShare[other], sha); }
    }
  }

  lemma StoredElsewhere(a: Tree, b: Tree, share: string, rows: seq<Row>, sha: Content -> string)
    requires Untouched(a, b, {share}) && AllStored(a, rows, sha)
    requires forall row :: row in rows ==> row.share != share
    ensures AllStored(b, rows, sha)
  {
    forall row | row in rows
      ensures Stored(b, row, sha)
    {
      assert Stored(a, row, sha);
      assert Get(b.shares, row.share) == Get(a.shares, row.share);
    }
  }

  lemma RestIsKept(a: map<string, StageDir>, b: map<string, StageDir>, stage: string)
    requires stage !in a && b - {stage} == a - {stage}
    ensures forall other :: other in a ==> Get(b, other) == Some(a[other])
    ensures b - {stage} == a
  {
    assert a - {stage} == a;
  }

  lemma {:induction false} FilesOfAt(share: string, rows: seq<Row>)
    requires DistinctKeys(rows) && forall row :: row in rows ==> row.share == share
    ensures forall id :: id in FilesOf(rows) <==> exists row :: row in rows && row.id == id
    ensures forall row :: row in rows ==> FilesOf(rows)[row.id] == row.body
  {
    if rows != [] {
      var front, last := rows[..|rows| - 1], rows[|rows| - 1];
      FilesOfAt(share, front);
      assert rows == front + [last];
      assert forall row :: row in front ==> KeyOf(row) != KeyOf(last);
    }
  }

  lemma GroupFiles(rows: seq<Row>, byShare: map<string, seq<Row>>, share: string, sha: Content -> string)
    requires Grouped(rows, byShare, sha) && share in byShare
    ensures FilesOf(byShare[share]).Keys == IdsOf(rows, share)
  {
    FilesOfAt(share, byShare[share]);
  }

  lemma FilledIsStored(t: Tree, share: string, rows: seq<Row>, now: int, sha: Content -> string)
    requires HexLower(sha) && Group(share, rows, sha) && ControlledId(share)
    requires forall row :: row in rows ==> ControlledId(row.id)
    requires Get(t.shares, share) == Some(ShareDir(now, Some(FilesOf(rows))))
    ensures AllStored(t, rows, sha)
  {
    FilesOfAt(share, rows);
  }
}

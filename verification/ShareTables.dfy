/** Conversation shares in the database: shares, resource metadata and single-use claims.

    Times are nanoseconds; the database stores them rounded down to microseconds. */
module ShareTables {
  import opened Prelude

  type ShareId = string
  type ResourceId = string
  type Hash = seq<int>

  const SNAPSHOT_VERSION := 1
  const HASH_LENGTH := 32
  const MICROSECOND := 1000
  const SESSION_DURATION := 30 * 60 * 1_000_000_000

  function DatabaseTime(t: int): (r: int)
    ensures r <= t < r + MICROSECOND
  {
    t / MICROSECOND * MICROSECOND
  }

  predicate Aligned(t: int) { DatabaseTime(t) == t }

  /** On a stored time, comparing with the rounded clock or with the clock is the same. */
  lemma RoundingIsInvisible(stored: int, now: int)
    requires Aligned(stored)
    ensures stored <= DatabaseTime(now) <==> stored <= now
  {
  }

  datatype Share = Share(
    owner: string, version: int, createdAt: int, expiresAt: Option<int>, revokedAt: Option<int>, singleUse: bool)
  datatype Claim = Claim(tokenHash: Hash, expiresAt: int)
  datatype Metadata = Metadata(size: nat, sha256: string)

  /** `resources` has an entry exactly for the shares that still have metadata rows. */
  datatype Tables = Tables(
    shares: map<ShareId, Share>,
    resources: map<ShareId, map<ResourceId, Metadata>>,
    claims: map<ShareId, Claim>)

  const EMPTY := Tables(map[], map[], map[])

  function CreateShare(
    t: Tables, id: ShareId, owner: string, rows: map<ResourceId, Metadata>, now: int, expiresAt: Option<int>,
    singleUse: bool): Option<Tables>
  {
    var created := DatabaseTime(now);
    var expires := if expiresAt.Some? then Some(DatabaseTime(expiresAt.value)) else None;
    if owner == "" || (expires.Some? && expires.value <= created) || (singleUse && expires.Some?) || id in t.shares
    then None else
    Some(t.(shares := t.shares[id := Share(owner, SNAPSHOT_VERSION, created, expires, None, singleUse)],
            resources := if rows == map[] then t.resources else t.resources[id := rows]))
  }

  predicate Readable(t: Tables, id: ShareId, now: int) {
    && id in t.shares && t.shares[id].version == SNAPSHOT_VERSION
    && t.shares[id].revokedAt.None?
    && (t.shares[id].expiresAt.Some? ==> t.shares[id].expiresAt.value > DatabaseTime(now))
  }

  predicate SessionMatches(c: Claim, presented: Hash, now: int) {
    |presented| == HASH_LENGTH && c.expiresAt > now && c.tokenHash == presented
  }

  datatype Answer = NotFound | Granted(claimed: bool)

  function AccessShare(t: Tables, id: ShareId, now: int, presented: Hash, newHash: Hash): (Tables, Answer) {
    if !Readable(t, id, now) then (t, NotFound)
    else if !t.shares[id].singleUse then (t, Granted(false))
    else if id !in t.claims then
      if |newHash| != HASH_LENGTH then (t, NotFound)
      else (t.(claims := t.claims[id := Claim(newHash, DatabaseTime(now + SESSION_DURATION))]), Granted(true))
    else if SessionMatches(t.claims[id], presented, now) then (t, Granted(false))
    else (t, NotFound)
  }

  function ReadResource(t: Tables, id: ShareId, res: ResourceId, now: int, presented: Hash): Option<Metadata> {
    if id in t.resources && res in t.resources[id] && Readable(t, id, now) &&
       (t.shares[id].singleUse ==> id in t.claims && SessionMatches(t.claims[id], presented, now))
    then Some(t.resources[id][res])
    else None
  }

  function RevokeShare(t: Tables, id: ShareId, owner: string, now: int): Option<Tables> {
    if id in t.shares && t.shares[id].owner == owner && t.shares[id].revokedAt.None?
    then Some(t.(shares := t.shares[id := t.shares[id].(revokedAt := Some(DatabaseTime(now)))]))
    else None
  }

  predicate Selected(t: Tables, id: ShareId, now: int) {
    && id in t.shares && id in t.resources
    && (|| t.shares[id].revokedAt.Some?
        || (t.shares[id].expiresAt.Some? && t.shares[id].expiresAt.value <= DatabaseTime(now))
        || (t.shares[id].singleUse && id in t.claims && t.claims[id].expiresAt <= DatabaseTime(now)))
  }

  function CleanupIds(t: Tables, now: int): set<ShareId> {
    set id | id in t.shares && Selected(t, id, now)
  }

  function DeleteMetadata(t: Tables, id: ShareId): Tables {
    t.(resources := t.resources - {id})
  }

  // ---------------------------------------------------------------- runs of transactions

  datatype Op =
    | Create(
        id: ShareId, owner: string, rows: map<ResourceId, Metadata>, now: int, expiresAt: Option<int>, singleUse: bool)
    | Access(id: ShareId, now: int, presented: Hash, newHash: Hash)
    | Read(id: ShareId, res: ResourceId, now: int, presented: Hash)
    | Revoke(id: ShareId, owner: string, now: int)
    | Forget(id: ShareId)

  function Apply(t: Tables, op: Op): Tables {
    match op
    case Create(id, owner, rows, now, expiresAt, singleUse) =>
      CreateShare(t, id, owner, rows, now, expiresAt, singleUse).GetOr(t)
    case Access(id, now, presented, newHash) => AccessShare(t, id, now, presented, newHash).0
    case Read(_, _, _, _) => t
    case Revoke(id, owner, now) => RevokeShare(t, id, owner, now).GetOr(t)
    case Forget(id) => DeleteMetadata(t, id)
  }

  function Run(t: Tables, ops: seq<Op>): Tables {
    if ops == [] then t else Apply(Run(t, ops[..|ops| - 1]), ops[|ops| - 1])
  }

  ghost predicate Consistent(t: Tables) {
    && (forall id :: id in t.shares ==>
          var s := t.shares[id];
          && s.version == SNAPSHOT_VERSION
          && (s.expiresAt.Some? ==> Aligned(s.expiresAt.value)) && (s.singleUse ==> s.expiresAt.None?))
    && (forall id :: id in t.claims ==>
          && id in t.shares && t.shares[id].singleUse
          && |t.claims[id].tokenHash| == HASH_LENGTH && Aligned(t.claims[id].expiresAt))
    && (forall id :: id in t.resources ==> id in t.shares && t.resources[id] != map[])
  }

  lemma ApplyKeepsConsistent(t: Tables, op: Op)
    requires Consistent(t)
    ensures Consistent(Apply(t, op))
  {
  }

  lemma {:induction false} RunKeepsConsistent(t: Tables, ops: seq<Op>)
    requires Consistent(t)
    ensures Consistent(Run(t, ops))
  {
    if ops != [] {
      RunKeepsConsistent(t, ops[..|ops| - 1]);
      ApplyKeepsConsistent(Run(t, ops[..|ops| - 1]), ops[|ops| - 1]);
    }
  }

  /** A share and its claim, once stored, stay; only the revocation time is ever filled in. */
  lemma {:induction false} SharesAndClaimsArePermanent(t: Tables, ops: seq<Op>, id: ShareId)
    requires id in t.shares
    ensures var t' := Run(t, ops);
            && id in t'.shares
            && t'.shares[id].(revokedAt := None) == t.shares[id].(revokedAt := None)
            && (t.shares[id].revokedAt.Some? ==> t'.shares[id].revokedAt == t.shares[id].revokedAt)
            && (id in t.claims ==> id in t'.claims && t'.claims[id] == t.claims[id])
  {
    if ops != [] { SharesAndClaimsArePermanent(t, ops[..|ops| - 1], id); }
  }

  /** The page was shown or the attachment served by this operation. */
  predicate Succeeds(t: Tables, op: Op, id: ShareId) {
    match op
    case Access(i, now, presented, newHash) => i == id && AccessShare(t, i, now, presented, newHash).1.Granted?
    case Read(i, res, now, presented) => i == id && ReadResource(t, i, res, now, presented).Some?
    case _ => false
  }

  predicate Claims(t: Tables, op: Op, id: ShareId) {
    op.Access? && op.id == id && AccessShare(t, op.id, op.now, op.presented, op.newHash).1 == Granted(true)
  }

  /** One step of a single-use share: success is the claim itself, or shows the claim's hash in time. */
  lemma SuccessNeedsTheClaim(t: Tables, op: Op, id: ShareId)
    requires id in t.shares && t.shares[id].singleUse
    requires Succeeds(t, op, id)
    ensures Claims(t, op, id) <==> id !in t.claims
    ensures Claims(t, op, id) ==>
              Get(Apply(t, op).claims, id) == Some(Claim(op.newHash, DatabaseTime(op.now + SESSION_DURATION)))
    ensures !Claims(t, op, id) ==> op.presented == t.claims[id].tokenHash && op.now < t.claims[id].expiresAt
  {
  }

  /** Over every run of transactions, a share claimed at step `i` is never claimed again, and every
      later success presents the claiming access's hash within 30 minutes. */
  lemma ClaimIsUnique(t: Tables, ops: seq<Op>, id: ShareId, i: nat, j: nat)
    requires i < j < |ops|
    requires Claims(Run(t, ops[..i]), ops[i], id) && Succeeds(Run(t, ops[..j]), ops[j], id)
    ensures !Claims(Run(t, ops[..j]), ops[j], id)
    ensures ops[j].presented == ops[i].newHash
    ensures ops[j].now < ops[i].now + SESSION_DURATION
  {
    var claimed := Run(t, ops[..i + 1]);
    assert ops[..i + 1][..i] == ops[..i];
    SuccessNeedsTheClaim(Run(t, ops[..i]), ops[i], id);
    assert claimed == Apply(Run(t, ops[..i]), ops[i]);
    RunSplits(t, ops[..j], i + 1);
    assert ops[..j][..i + 1] == ops[..i + 1];
    SharesAndClaimsArePermanent(claimed, ops[..j][i + 1..], id);
    SuccessNeedsTheClaim(Run(t, ops[..j]), ops[j], id);
  }

  /** A claim row comes from a claiming access, and from no other transaction. */
  lemma {:induction false} ClaimHasAnAccess(t: Tables, ops: seq<Op>, id: ShareId) returns (i: nat)
    requires id !in t.claims && id in Run(t, ops).claims
    ensures i < |ops| && Claims(Run(t, ops[..i]), ops[i], id)
  {
    var n := |ops| - 1;
    if id in Run(t, ops[..n]).claims {
      i := ClaimHasAnAccess(t, ops[..n], id);
      assert ops[..n][..i] == ops[..i];
    } else {
      i := n;
    }
  }

  /** From tables without a claim, every success on a single-use share is the one claiming access of
      the run, or comes after it, presents its hash and falls within 30 minutes of it. */
  lemma SuccessTracesToTheClaim(t: Tables, ops: seq<Op>, id: ShareId, j: nat) returns (i: nat)
    requires id !in t.claims && j < |ops| && Succeeds(Run(t, ops[..j]), ops[j], id)
    requires Run(t, ops[..j]).shares[id].singleUse
    ensures i <= j && Claims(Run(t, ops[..i]), ops[i], id)
    ensures i < j ==> ops[j].presented == ops[i].newHash && ops[j].now < ops[i].now + SESSION_DURATION
    ensures forall k :: 0 <= k < |ops| && Claims(Run(t, ops[..k]), ops[k], id) ==> k == i
  {
    SuccessNeedsTheClaim(Run(t, ops[..j]), ops[j], id);
    if Claims(Run(t, ops[..j]), ops[j], id) {
      i := j;
    } else {
      i := ClaimHasAnAccess(t, ops[..j], id);
      assert ops[..j][..i] == ops[..i];
      ClaimIsUnique(t, ops, id, i, j);
    }
    forall k | 0 <= k < |ops| && Claims(Run(t, ops[..k]), ops[k], id)
      ensures k == i
    {
      if k < i { ClaimIsUnique(t, ops, id, k, i); }
      if i < k { ClaimIsUnique(t, ops, id, i, k); }
    }
  }

  lemma {:induction false} RunSplits(t: Tables, ops: seq<Op>, k: nat)
    requires k <= |ops|
    ensures Run(t, ops) == Run(Run(t, ops[..k]), ops[k..])
    decreases |ops|
  {
    if k == |ops| {
      assert ops[..k] == ops;
    } else {
      var n := |ops| - 1;
      RunSplits(t, ops[..n], k);
      assert ops[..n][..k] == ops[..k];
      assert ops[k..][..|ops[k..]| - 1] == ops[..n][k..];
    }
  }

  // ---------------------------------------------------------------- what a creation promises

  predicate Creates(t: Tables, op: Op) {
    op.Create? && CreateShare(t, op.id, op.owner, op.rows, op.now, op.expiresAt, op.singleUse).Some?
  }

  /** The owner the share was created with has revoked it. */
  predicate OwnerRevoked(create: Op, ops: seq<Op>)
    requires create.Create?
  {
    exists op <- ops :: op.Revoke? && op.id == create.id && op.owner == create.owner
  }

  /** Not revoked by its owner and, if it was created with an expiry, not come to it. */
  predicate StillOpen(create: Op, ops: seq<Op>, now: int)
    requires create.Create?
  {
    !OwnerRevoked(create, ops) && (create.expiresAt.Some? ==> now < DatabaseTime(create.expiresAt.value))
  }

  lemma {:induction false} CreatedStays(t: Tables, create: Op, ops: seq<Op>)
    requires Consistent(t) && Creates(t, create)
    ensures var s := Run(Apply(t, create), ops);
            && create.id in s.shares
            && s.shares[create.id].owner == create.owner && s.shares[create.id].version == SNAPSHOT_VERSION
            && s.shares[create.id].createdAt == DatabaseTime(create.now)
            && s.shares[create.id].singleUse == create.singleUse
            && s.shares[create.id].expiresAt
               == (if create.expiresAt.Some? then Some(DatabaseTime(create.expiresAt.value)) else None)
            && (s.shares[create.id].revokedAt.Some? <==> OwnerRevoked(create, ops))
            && Get(s.resources, create.id)
               == (if create.rows == map[] || Forget(create.id) in ops then None else Some(create.rows))
  {
    if ops != [] {
      var n := |ops| - 1;
      CreatedStays(t, create, ops[..n]);
      assert ops == ops[..n] + [ops[n]];
      CreatedStaysOnce(create, Run(Apply(t, create), ops[..n]), ops[n]);
      assert OwnerRevoked(create, ops) <==> OwnerRevoked(create, ops[..n]) || OwnerRevoked(create, [ops[n]]);
    }
  }

  lemma CreatedStaysOnce(create: Op, s: Tables, op: Op)
    requires create.Create? && create.id in s.shares && s.shares[create.id].owner == create.owner
    ensures var s' := Apply(s, op);
            && create.id in s'.shares
            && s'.shares[create.id].(revokedAt := None) == s.shares[create.id].(revokedAt := None)
            && (s'.shares[create.id].revokedAt.Some?
                <==> s.shares[create.id].revokedAt.Some? || OwnerRevoked(create, [op]))
            && Get(s'.resources, create.id) == (if op == Forget(create.id) then None else Get(s.resources, create.id))
  {
    assert OwnerRevoked(create, [op]) <==> op.Revoke? && op.id == create.id && op.owner == create.owner;
  }

  /** Every answer on a share created for any number of visits: an access is granted and a row given is
      read, with its values, exactly while the share is open. */
  lemma OrdinaryShareIsServed(t: Tables, create: Op, ops: seq<Op>, res: ResourceId, now: int, shown: Hash, drawn: Hash)
    requires Consistent(t) && Creates(t, create) && !create.singleUse
    ensures var s, served := Run(Apply(t, create), ops), StillOpen(create, ops, now);
            && AccessShare(s, create.id, now, shown, drawn).1 == (if served then Granted(false) else NotFound)
            && ReadResource(s, create.id, res, now, shown)
               == (if served && res in create.rows && Forget(create.id) !in ops then Some(create.rows[res]) else None)
  {
    CreatedStays(t, create, ops);
    if create.expiresAt.Some? { RoundingIsInvisible(DatabaseTime(create.expiresAt.value), now); }
  }

  /** The page was shown to this access. */
  predicate Grants(t: Tables, op: Op, id: ShareId) {
    op.Access? && op.id == id && AccessShare(t, op.id, op.now, op.presented, op.newHash).1.Granted?
  }

  ghost predicate NoneGranted(t: Tables, ops: seq<Op>, id: ShareId) {
    forall k :: 0 <= k < |ops| ==> !Grants(Run(t, ops[..k]), ops[k], id)
  }

  lemma UngrantedClaimsNothing(t: Tables, op: Op, id: ShareId)
    requires id in t.shares && t.shares[id].singleUse && id !in t.claims && !Grants(t, op, id)
    ensures id in Apply(t, op).shares && Apply(t, op).shares[id].singleUse && id !in Apply(t, op).claims
  {
  }

  lemma {:induction false} UnclaimedUntilGranted(t: Tables, ops: seq<Op>, id: ShareId)
    requires id in t.shares && t.shares[id].singleUse && id !in t.claims && NoneGranted(t, ops, id)
    ensures id in Run(t, ops).shares && Run(t, ops).shares[id].singleUse && id !in Run(t, ops).claims
  {
    if ops != [] {
      var n := |ops| - 1;
      assert forall k :: 0 <= k < n ==> ops[..n][..k] == ops[..k];
      UnclaimedUntilGranted(t, ops[..n], id);
      UngrantedClaimsNothing(Run(t, ops[..n]), ops[n], id);
    }
  }

  /** A single-use share that was shown to nobody yet: the next access claims it exactly while the share
      is not revoked and the new session's hash has its length, and no attachment can be read. */
  lemma SingleUseShareAwaitsItsVisitor(
    t: Tables, create: Op, ops: seq<Op>, res: ResourceId, now: int, shown: Hash, drawn: Hash)
    requires Consistent(t) && Creates(t, create) && create.singleUse
    requires NoneGranted(Apply(t, create), ops, create.id)
    ensures var s := Run(Apply(t, create), ops);
            && AccessShare(s, create.id, now, shown, drawn).1
               == (if !OwnerRevoked(create, ops) && |drawn| == HASH_LENGTH then Granted(true) else NotFound)
            && ReadResource(s, create.id, res, now, shown) == None
  {
    CreatedStays(t, create, []);
    CreatedStays(t, create, ops);
    UnclaimedUntilGranted(Apply(t, create), ops, create.id);
  }

  /** The first access of `ops` that is shown the page. */
  ghost predicate FirstGranted(t: Tables, ops: seq<Op>, k: nat, id: ShareId) {
    k < |ops| && NoneGranted(t, ops[..k], id) && Grants(Run(t, ops[..k]), ops[k], id)
  }

  lemma FirstClaims(t: Tables, create: Op, ops: seq<Op>, k: nat)
    requires Consistent(t) && Creates(t, create) && create.singleUse
    requires FirstGranted(Apply(t, create), ops, k, create.id)
    ensures Claims(Run(Apply(t, create), ops[..k]), ops[k], create.id) && |ops[k].newHash| == HASH_LENGTH
    ensures Get(Run(Apply(t, create), ops).claims, create.id)
            == Some(Claim(ops[k].newHash, DatabaseTime(ops[k].now + SESSION_DURATION)))
  {
    var made := Apply(t, create);
    SingleUseShareAwaitsItsVisitor(t, create, ops[..k], "", ops[k].now, ops[k].presented, ops[k].newHash);
    CreatedStays(t, create, ops[..k]);
    SuccessNeedsTheClaim(Run(made, ops[..k]), ops[k], create.id);
    assert ops[..k + 1][..k] == ops[..k];
    RunSplits(made, ops, k + 1);
    SharesAndClaimsArePermanent(Run(made, ops[..k + 1]), ops[k + 1..], create.id);
  }

  /** From the first access that was shown the page on: that access was the claim, and every later answer
      is a success exactly while the share is not revoked, for whoever presents the hash drawn then, and
      for 30 minutes. */
  lemma SingleUseShareServesItsVisitor(
    t: Tables, create: Op, ops: seq<Op>, k: nat, res: ResourceId, now: int, shown: Hash, drawn: Hash)
    requires Consistent(t) && Creates(t, create) && create.singleUse
    requires FirstGranted(Apply(t, create), ops, k, create.id)
    ensures Claims(Run(Apply(t, create), ops[..k]), ops[k], create.id)
    ensures var s := Run(Apply(t, create), ops);
            var served := !OwnerRevoked(create, ops) && shown == ops[k].newHash &&
                          now < DatabaseTime(ops[k].now + SESSION_DURATION);
            && AccessShare(s, create.id, now, shown, drawn).1 == (if served then Granted(false) else NotFound)
            && ReadResource(s, create.id, res, now, shown)
               == (if served && res in create.rows && Forget(create.id) !in ops then Some(create.rows[res]) else None)
  {
    CreatedStays(t, create, ops);
    FirstClaims(t, create, ops, k);
  }

  /** Only the owner named at the creation revokes the share, once, and its id is never created again. */
  lemma OnlyTheOwnerRevokes(t: Tables, create: Op, ops: seq<Op>, owner: string, now: int, other: Op)
    requires Consistent(t) && Creates(t, create)
    ensures var s := Run(Apply(t, create), ops);
            && (RevokeShare(s, create.id, owner, now).Some? <==> owner == create.owner && !OwnerRevoked(create, ops))
            && (other.Create? && other.id == create.id ==> !Creates(s, other))
  {
    CreatedStays(t, create, ops);
  }

  // ---------------------------------------------------------------- cleanup selection is exact

  /** Every read and access of the share is refused at `now`, whatever hash is shown. */
  ghost predicate RefusedAt(t: Tables, id: ShareId, now: int) {
    && (forall presented: Hash, newHash: Hash :: AccessShare(t, id, now, presented, newHash).1 == NotFound)
    && (forall presented: Hash, res: ResourceId :: ReadResource(t, id, res, now, presented) == None)
  }

  /** A share selected at `t0` is refused at every later clock, after any further transactions. */
  lemma SelectedIsRefusedForever(t: Tables, ops: seq<Op>, id: ShareId, t0: int, now: int)
    requires Consistent(t) && Selected(t, id, t0) && t0 <= now
    ensures RefusedAt(Run(t, ops), id, now)
  {
    SharesAndClaimsArePermanent(t, ops, id);
    DatabaseTimeMonotone(t0, now);
    var t' := Run(t, ops);
    assert t'.shares[id].expiresAt == t.shares[id].(revokedAt := None).expiresAt;
    assert t'.shares[id].singleUse == t.shares[id].(revokedAt := None).singleUse;
  }

  lemma DatabaseTimeMonotone(a: int, b: int)
    requires a <= b
    ensures DatabaseTime(a) <= DatabaseTime(b)
  {
  }

  /** And selection misses nothing: among shares with metadata, selected is the same as refused. */
  lemma SelectionIsExact(t: Tables, id: ShareId, t0: int)
    requires Consistent(t) && id in t.resources
    ensures Selected(t, id, t0) <==> RefusedAt(t, id, t0)
  {
    if Selected(t, id, t0) {
      SelectedIsRefusedForever(t, [], id, t0, t0);
    } else {
      var unused := seq(HASH_LENGTH, i => 0);
      if id in t.claims { RoundingIsInvisible(t.claims[id].expiresAt, t0); }
      var presented := if id in t.claims then t.claims[id].tokenHash else unused;
      assert AccessShare(t, id, t0, presented, unused).1.Granted?;
    }
  }

  // ---------------------------------------------------------------- the tables as an object

  class ShareDB {
    var shares: map<ShareId, Share>
    var resources: map<ShareId, map<ResourceId, Metadata>>
    var claims: map<ShareId, Claim>

    function View(): Tables reads this { Tables(shares, resources, claims) }

    constructor ()
      ensures View() == EMPTY
    {
      shares, resources, claims := map[], map[], map[];
    }

    method CreateConversationShareWithResources(
      id: ShareId, owner: string, rows: map<ResourceId, Metadata>, now: int, expiresAt: Option<int>, singleUse: bool)
      returns (ok: bool)
      modifies this
      ensures ok == CreateShare(old(View()), id, owner, rows, now, expiresAt, singleUse).Some?
      ensures ok <==>
                && owner != "" && id !in old(shares)
                && (expiresAt.Some? ==> !singleUse && DatabaseTime(now) < DatabaseTime(expiresAt.value))
      ensures View() == CreateShare(old(View()), id, owner, rows, now, expiresAt, singleUse).GetOr(old(View()))
    {
      var created := DatabaseTime(now);
      var expires := expiresAt;
      if expires.Some? {
        expires := Some(DatabaseTime(expires.value));
      }
      if owner == "" {
        return false;
      }
      if expires.Some? && expires.value <= created {
        return false;
      }
      if singleUse && expires.Some? {
        return false;
      }
      if id in shares {
        return false;
      }
      shares := shares[id := Share(owner, SNAPSHOT_VERSION, created, expires, None, singleUse)];
      if rows != map[] {
        resources := resources[id := rows];
      }
      return true;
    }

    method AccessPublicConversationShare(id: ShareId, now: int, presented: Hash, newHash: Hash) returns (answer: Answer)
      modifies this
      ensures (View(), answer) == AccessShare(old(View()), id, now, presented, newHash)
    {
      if id !in shares || shares[id].version != 1 || shares[id].revokedAt.Some? ||
         (shares[id].expiresAt.Some? && shares[id].expiresAt.value <= DatabaseTime(now)) {
        return NotFound;
      }
      if !shares[id].singleUse {
        return Granted(false);
      }
      if id !in claims {
        if |newHash| != 32 {
          return NotFound;
        }
        claims := claims[id := Claim(newHash, DatabaseTime(now + SESSION_DURATION))];
        return Granted(true);
      }
      if |presented| != 32 || claims[id].expiresAt <= now || claims[id].tokenHash != presented {
        return NotFound;
      }
      return Granted(false);
    }

    method RevokeConversationShare(id: ShareId, owner: string, now: int) returns (found: bool)
      modifies this
      ensures found == RevokeShare(old(View()), id, owner, now).Some?
      ensures View() == RevokeShare(old(View()), id, owner, now).GetOr(old(View()))
    {
      found := id in shares && shares[id].owner == owner && shares[id].revokedAt.None?;
      if found {
        shares := shares[id := shares[id].(revokedAt := Some(DatabaseTime(now)))];
      }
    }

    method DeleteConversationShareResourceMetadata(id: ShareId)
      modifies this`resources
      ensures View() == DeleteMetadata(old(View()), id)
    {
      resources := resources - {id};
    }
  }
}

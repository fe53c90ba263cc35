/** Decoding a streamed upload: a snapshot first, then one part for each attachment it declares,
    all attachments sharing one byte budget. Parts arrive already split. */
module UploadDecoder {
  import opened Prelude
  import V = SnapshotValidator
  import F = ShareFiles

  /** `parsed` is the snapshot's JSON, `mimeType` the part's media type, each if well formed.
      A broken part is where the request can be read no further. */
  datatype Part =
    | SnapshotPart(size: nat, parsed: Option<V.Snapshot>)
    | AttachmentPart(id: string, fileName: string, mimeType: Option<string>, body: F.Content)
    | OtherPart
    | BrokenPart

  datatype Limits = Limits(maxSnapshotBytes: nat, maxResourceBytes: nat)

  datatype Resource = Resource(id: string, name: string, mimeType: string, size: nat, sha256: string)

  datatype Error = Invalid | SnapshotTooLarge | ResourcesTooLarge | Storage

  datatype Result = Ok(snapshot: V.Snapshot, resources: seq<Resource>) | Err(error: Error)

  // ---------------------------------------------------------------- what is acceptable

  predicate PartMatches(d: V.Descriptor, p: Part, sha: F.Content -> string) {
    && p.AttachmentPart? && p.id == d.id && p.fileName == d.name
    && p.mimeType.Some? && F.EqualFold(p.mimeType.value, d.mimeType)
    && |p.body| == d.size && F.EqualFold(sha(p.body), d.sha256)
  }

  predicate Declared(a: seq<V.Descriptor>, p: Part, sha: F.Content -> string) {
    exists k :: 0 <= k < |a| && PartMatches(a[k], p, sha)
  }

  /** The bytes of the attachments among the first `n` parts. */
  function Total(parts: seq<Part>, n: nat): (t: nat)
    requires n <= |parts|
  {
    if n == 0 then 0
    else Total(parts, n - 1) + (if parts[n - 1].AttachmentPart? then |parts[n - 1].body| else 0)
  }

  lemma {:induction false} TotalGrows(parts: seq<Part>, m: nat, n: nat)
    requires m <= n <= |parts|
    ensures Total(parts, m) <= Total(parts, n)
  {
    if m < n { TotalGrows(parts, m, n - 1); }
  }

  ghost predicate SnapshotFirst(parts: seq<Part>, limits: Limits) {
    && parts != [] && parts[0].SnapshotPart? && 0 < parts[0].size <= limits.maxSnapshotBytes
    && parts[0].parsed.Some? && V.Valid(parts[0].parsed.value)
  }

  /** The attachment parts before `n` are declared, distinct and within the budget. */
  ghost predicate BodyOk(parts: seq<Part>, n: nat, a: seq<V.Descriptor>, budget: nat, sha: F.Content -> string)
    requires n <= |parts|
  {
    && (forall i :: 1 <= i < n ==> Declared(a, parts[i], sha))
    && (forall i, j :: 1 <= i < j < n ==> parts[i].id != parts[j].id)
    && Total(parts, n) <= budget
  }

  /** One part for each declared attachment, matching it, within the budget. */
  ghost predicate Acceptable(parts: seq<Part>, limits: Limits, sha: F.Content -> string) {
    && SnapshotFirst(parts, limits)
    && BodyOk(parts, |parts|, parts[0].parsed.value.attachments, limits.maxResourceBytes, sha)
    && |parts| - 1 == |parts[0].parsed.value.attachments|
  }

  function PartIds(parts: seq<Part>, n: nat): set<string>
    requires n <= |parts|
  {
    set i | 1 <= i < n && parts[i].AttachmentPart? :: parts[i].id
  }

  lemma {:induction false} PartIdsCount(parts: seq<Part>, n: nat)
    requires 1 <= n <= |parts|
    requires forall i :: 1 <= i < n ==> parts[i].AttachmentPart?
    requires forall i, j :: 1 <= i < j < n ==> parts[i].id != parts[j].id
    ensures |PartIds(parts, n)| == n - 1
  {
    if n > 1 {
      PartIdsCount(parts, n - 1);
      assert PartIds(parts, n) == PartIds(parts, n - 1) + {parts[n - 1].id};
      assert parts[n - 1].id !in PartIds(parts, n - 1);
    } else {
      assert PartIds(parts, n) == {};
    }
  }

  lemma {:induction false} IdsCount(a: seq<V.Descriptor>)
    requires forall i, j :: 0 <= i < j < |a| ==> a[i].id != a[j].id
    ensures |V.Ids(a)| == |a|
  {
    if a != [] {
      var n := |a| - 1;
      IdsCount(a[..n]);
      V.ScanOne(a[..n], a[n]);
      assert a == a[..n] + [a[n]];
      assert a[n].id !in V.Ids(a[..n]);
    }
  }

  lemma SubsetOfSameSize<T>(a: set<T>, b: set<T>)
    requires a <= b && |a| == |b|
    ensures a == b
  {
    assert |b - a| == 0;
  }

  /** The parts of an acceptable upload and the declared attachments are in bijection: each
      attachment has exactly one part, with its name, type, size and hash. */
  lemma PartsAreBijective(parts: seq<Part>, limits: Limits, sha: F.Content -> string, k: nat)
    requires Acceptable(parts, limits, sha) && k < |parts[0].parsed.value.attachments|
    ensures exists i :: 1 <= i < |parts| && PartMatches(parts[0].parsed.value.attachments[k], parts[i], sha)
    ensures forall i, j | 1 <= i < |parts| && 1 <= j < |parts| ::
              var d := parts[0].parsed.value.attachments[k];
              PartMatches(d, parts[i], sha) && PartMatches(d, parts[j], sha) ==> i == j
  {
    var a := parts[0].parsed.value.attachments;
    forall i | 1 <= i < |parts| ensures parts[i].AttachmentPart? && parts[i].id in V.Ids(a) {
      assert Declared(a, parts[i], sha);
    }
    PartIdsCount(parts, |parts|);
    IdsCount(a);
    SubsetOfSameSize(PartIds(parts, |parts|), V.Ids(a));
    assert a[k].id in PartIds(parts, |parts|);
    var i :| 1 <= i < |parts| && parts[i].id == a[k].id;
    assert Declared(a, parts[i], sha);
    var m :| 0 <= m < |a| && PartMatches(a[m], parts[i], sha);
    assert m == k;
  }

  // ---------------------------------------------------------------- decoding

  function Described(d: V.Descriptor, sha256: string): Resource
    requires d.size >= 0
  {
    Resource(d.id, d.name, d.mimeType, d.size, F.Lower(sha256))
  }

  /** The stage holds the bodies of the first `n` parts and nothing else. */
  ghost predicate StageHolds(files: F.Files, parts: seq<Part>, n: nat)
    requires n <= |parts|
  {
    files.Keys == PartIds(parts, n) &&
    forall i :: 1 <= i < n && parts[i].AttachmentPart? ==> parts[i].id in files && files[parts[i].id] == parts[i].body
  }

  /** What was recorded for the files staged so far. */
  ghost predicate Recorded(
    uploaded: map<string, Resource>, descriptors: V.Descriptors, files: F.Files, sha: F.Content -> string)
  {
    uploaded.Keys == files.Keys <= descriptors.Keys &&
    forall id :: id in uploaded ==>
      descriptors[id].size == |files[id]| && uploaded[id] == Described(descriptors[id], sha(files[id]))
  }

  /** What the snapshot check gives for each descriptor. */
  predicate Checked(descriptors: V.Descriptors) {
    forall id :: id in descriptors ==> descriptors[id].id == id && V.LowerHex(id, 24) && descriptors[id].size >= 0
  }

  datatype Taken = Took(resource: Resource) | Rejected(error: Error)

  /** The part is declared, new, matching, and fits what is left. */
  predicate Fits(part: Part, descriptors: V.Descriptors, taken: set<string>, remaining: int, sha: F.Content -> string) {
    && part.AttachmentPart? && part.id in descriptors && part.id !in taken
    && PartMatches(descriptors[part.id], part, sha) && |part.body| <= remaining
  }

  /** One attachment part. It is taken exactly when it is declared, new, matching, fits into what is
      left of the budget and the disk takes it; then its body is staged. */
  method TakeAttachment(
    part: Part, descriptors: V.Descriptors, uploaded: map<string, Resource>, remaining: nat,
    stage: F.Stage, sha: F.Content -> string, now: int, disk: F.Disk) returns (r: Taken)
    requires part.AttachmentPart? && Checked(descriptors)
    requires stage.Ready() && Recorded(uploaded, descriptors, stage.Files(), sha)
    modifies stage.store`staging
    ensures stage.Ready()
    ensures r.Took? <==> Fits(part, descriptors, uploaded.Keys, remaining, sha) && disk.Sound?
    ensures r.Took? ==> stage.Files() == old(stage.Files())[part.id := part.body]
    ensures r.Took? ==>
              && r.resource.size == |part.body|
              && Recorded(uploaded[part.id := r.resource], descriptors, stage.Files(), sha)
    ensures r == Rejected(ResourcesTooLarge) ==> remaining < |part.body|
    ensures r == Rejected(Storage) ==> disk.Faulty?
  {
    var id := part.id;
    if id !in descriptors {
      return Rejected(Invalid);
    }
    var d := descriptors[id];
    if id in uploaded || part.fileName != d.name ||
       part.mimeType.None? || !F.EqualFold(part.mimeType.value, d.mimeType) {
      return Rejected(Invalid);
    }
    assert F.ControlledId(id);
    var written := stage.Write(id, part.body, remaining, now, disk);
    if written.NotWritten? {
      return Rejected(if written.error == F.TooLarge then ResourcesTooLarge else Storage);
    }
    var digest := sha(part.body);
    if written.size != d.size || !F.EqualFold(digest, d.sha256) {
      return Rejected(Invalid);
    }
    return Took(Resource(id, d.name, d.mimeType, written.size, F.Lower(digest)));
  }

  lemma DeclaredByIndex(a: seq<V.Descriptor>, descriptors: V.Descriptors, p: Part, sha: F.Content -> string)
    requires V.Indexes(descriptors, a)
    ensures Declared(a, p, sha) <==> p.AttachmentPart? && p.id in descriptors && PartMatches(descriptors[p.id], p, sha)
  {
    if Declared(a, p, sha) {
      var m :| 0 <= m < |a| && PartMatches(a[m], p, sha);
      assert descriptors[p.id] == a[m];
    } else if p.AttachmentPart? && p.id in descriptors {
      var m :| 0 <= m < |a| && a[m].id == p.id;
      assert descriptors[p.id] == a[m];
    }
  }

  lemma PartIdsGrow(parts: seq<Part>, n: nat)
    requires 1 <= n < |parts| && parts[n].AttachmentPart?
    requires forall i :: 1 <= i < n ==> parts[i].AttachmentPart?
    ensures PartIds(parts, n + 1) == PartIds(parts, n) + {parts[n].id}
    ensures parts[n].id in PartIds(parts, n) <==> exists i :: 1 <= i < n && parts[i].id == parts[n].id
  {
  }

  /** One more attachment keeps the body acceptable exactly when it is taken. */
  lemma BodyGrows(
    parts: seq<Part>, n: nat, a: seq<V.Descriptor>, budget: nat,
    sha: F.Content -> string, descriptors: V.Descriptors)
    requires 1 <= n < |parts| && BodyOk(parts, n, a, budget, sha) && V.Indexes(descriptors, a)
    ensures BodyOk(parts, n + 1, a, budget, sha) <==>
              Fits(parts[n], descriptors, PartIds(parts, n), budget - Total(parts, n), sha)
    ensures parts[n].AttachmentPart? ==> PartIds(parts, n + 1) == PartIds(parts, n) + {parts[n].id}
  {
    BodyParts(parts, n, a, budget, sha);
    DeclaredByIndex(a, descriptors, parts[n], sha);
    if Declared(a, parts[n], sha) {
      BodyGrowsByOne(parts, n, a, budget, sha);
    }
    if parts[n].AttachmentPart? { PartIdsGrow(parts, n); }
  }

  lemma BodyGrowsByOne(parts: seq<Part>, n: nat, a: seq<V.Descriptor>, budget: nat, sha: F.Content -> string)
    requires 1 <= n < |parts| && BodyOk(parts, n, a, budget, sha) && Declared(a, parts[n], sha)
    ensures BodyOk(parts, n + 1, a, budget, sha) <==>
              parts[n].id !in PartIds(parts, n) && |parts[n].body| <= budget - Total(parts, n)
  {
    BodyParts(parts, n, a, budget, sha);
    DistinctGrows(parts, n);
    if parts[n].id !in PartIds(parts, n) && |parts[n].body| <= budget - Total(parts, n) {
      BodyTakes(parts, n, a, budget, sha);
    }
  }

  lemma BodyTakes(parts: seq<Part>, n: nat, a: seq<V.Descriptor>, budget: nat, sha: F.Content -> string)
    requires 1 <= n < |parts| && BodyOk(parts, n, a, budget, sha) && Declared(a, parts[n], sha)
    requires parts[n].id !in PartIds(parts, n) && |parts[n].body| <= budget - Total(parts, n)
    ensures BodyOk(parts, n + 1, a, budget, sha)
  {
    forall i | 1 <= i < n
      ensures parts[i].id in PartIds(parts, n)
    {
      assert Declared(a, parts[i], sha);
    }
    assert forall i :: 1 <= i < n + 1 ==> Declared(a, parts[i], sha);
  }

  lemma DistinctGrows(parts: seq<Part>, n: nat)
    requires 1 <= n < |parts| && parts[n].AttachmentPart?
    requires forall i :: 1 <= i < n ==> parts[i].AttachmentPart?
    requires forall i, j :: 1 <= i < j < n ==> parts[i].id != parts[j].id
    ensures (forall i, j :: 1 <= i < j < n + 1 ==>
               parts[i].AttachmentPart? && parts[j].AttachmentPart? && parts[i].id != parts[j].id) <==>
            parts[n].id !in PartIds(parts, n)
  {
    if parts[n].id in PartIds(parts, n) {
      var i :| 1 <= i < n && parts[i].id == parts[n].id;
    }
  }

  lemma BodyParts(parts: seq<Part>, n: nat, a: seq<V.Descriptor>, budget: nat, sha: F.Content -> string)
    requires 1 <= n <= |parts| && BodyOk(parts, n, a, budget, sha)
    ensures forall i :: 1 <= i < n ==> parts[i].AttachmentPart? && parts[i].id in V.Ids(a)
    ensures |PartIds(parts, n)| == n - 1
    ensures PartIds(parts, n) <= V.Ids(a)
  {
    forall i | 1 <= i < n ensures parts[i].AttachmentPart? && parts[i].id in V.Ids(a) {
      assert Declared(a, parts[i], sha);
    }
    PartIdsCount(parts, n);
  }

  lemma StageGrows(parts: seq<Part>, n: nat, before: F.Files, after: F.Files)
    requires 1 <= n < |parts| && parts[n].AttachmentPart? && StageHolds(before, parts, n)
    requires parts[n].id !in before && after == before[parts[n].id := parts[n].body]
    requires PartIds(parts, n + 1) == PartIds(parts, n) + {parts[n].id}
    ensures StageHolds(after, parts, n + 1)
  {
    forall i | 1 <= i < n + 1 && parts[i].AttachmentPart?
      ensures parts[i].id in after && after[parts[i].id] == parts[i].body
    {
      if i < n { assert parts[i].id in before; }
    }
  }

  lemma CheckedByIndex(descriptors: V.Descriptors, a: seq<V.Descriptor>)
    requires V.AttachmentsOk(a) && V.Indexes(descriptors, a)
    ensures Checked(descriptors) && |descriptors| == |a|
  {
    forall id | id in descriptors ensures descriptors[id].id == id && V.DescriptorOk(descriptors[id]) {
      var k :| 0 <= k < |a| && a[k].id == id;
    }
    IdsCount(a);
    assert |descriptors| == |descriptors.Keys|;
  }

  lemma BodyCut(parts: seq<Part>, n: nat, a: seq<V.Descriptor>, budget: nat, sha: F.Content -> string)
    requires n < |parts| && BodyOk(parts, n + 1, a, budget, sha)
    ensures BodyOk(parts, n, a, budget, sha)
  {
    TotalGrows(parts, n, n + 1);
  }

  /** The parts up to one fit the budget and the next does not. */
  ghost predicate OverBudget(parts: seq<Part>, budget: nat) {
    exists i :: 1 <= i < |parts| && Total(parts, i) <= budget < Total(parts, i + 1)
  }

  lemma BudgetBreaksAt(parts: seq<Part>, budget: nat, n: nat)
    requires 1 <= n < |parts| && parts[n].AttachmentPart?
    requires Total(parts, n) <= budget < Total(parts, n) + |parts[n].body|
    ensures OverBudget(parts, budget)
  {
    assert Total(parts, n + 1) == Total(parts, n) + |parts[n].body|;
  }

  /** How the disk takes each part. */
  predicate AllSound(disks: seq<F.Disk>, n: nat)
    requires n <= |disks|
  {
    forall i :: 1 <= i < n ==> disks[i].Sound?
  }

  /** The parts before `n`, one after another, each fitting what the ones before it left. */
  predicate AllFit(parts: seq<Part>, n: nat, descriptors: V.Descriptors, budget: nat, sha: F.Content -> string)
    requires n <= |parts|
  {
    n <= 1 ||
    (AllFit(parts, n - 1, descriptors, budget, sha) &&
     Fits(parts[n - 1], descriptors, PartIds(parts, n - 1), budget - Total(parts, n - 1), sha))
  }

  lemma BodyStep(
    parts: seq<Part>, n: nat, a: seq<V.Descriptor>, descriptors: V.Descriptors, budget: nat, sha: F.Content -> string)
    requires 1 <= n < |parts| && V.Indexes(descriptors, a)
    ensures BodyOk(parts, n + 1, a, budget, sha) <==>
              BodyOk(parts, n, a, budget, sha) &&
              Fits(parts[n], descriptors, PartIds(parts, n), budget - Total(parts, n), sha)
  {
    if BodyOk(parts, n + 1, a, budget, sha) {
      BodyCut(parts, n, a, budget, sha);
    }
    if BodyOk(parts, n, a, budget, sha) {
      BodyGrows(parts, n, a, budget, sha, descriptors);
    }
  }

  /** Part by part or all at once comes to the same. */
  lemma {:induction false} AllFitIsBodyOk(
    parts: seq<Part>, n: nat, a: seq<V.Descriptor>, descriptors: V.Descriptors, budget: nat, sha: F.Content -> string)
    requires 1 <= n <= |parts| && parts[0].SnapshotPart? && V.Indexes(descriptors, a)
    ensures AllFit(parts, n, descriptors, budget, sha) <==> BodyOk(parts, n, a, budget, sha)
  {
    if n == 1 {
      assert Total(parts, 1) == 0;
    } else {
      AllFitIsBodyOk(parts, n - 1, a, descriptors, budget, sha);
      BodyStep(parts, n - 1, a, descriptors, budget, sha);
    }
  }

  lemma {:induction false} FitIsCut(
    parts: seq<Part>, n: nat, m: nat, descriptors: V.Descriptors, budget: nat, sha: F.Content -> string)
    requires n <= m <= |parts| && !AllFit(parts, n, descriptors, budget, sha)
    ensures !AllFit(parts, m, descriptors, budget, sha)
  {
    if n < m { FitIsCut(parts, n, m - 1, descriptors, budget, sha); }
  }

  lemma PartIdsStep(parts: seq<Part>, n: nat)
    requires 1 <= n < |parts| && parts[n].AttachmentPart?
    ensures PartIds(parts, n + 1) == PartIds(parts, n) + {parts[n].id}
  {
  }

  /** The state of the loop before part `n`. */
  ghost predicate SoFar(
    parts: seq<Part>, n: nat, descriptors: V.Descriptors, budget: nat, sha: F.Content -> string, disks: seq<F.Disk>,
    uploaded: map<string, Resource>, total: nat, files: F.Files)
  {
    && 1 <= n <= |parts| == |disks|
    && AllFit(parts, n, descriptors, budget, sha) && total == Total(parts, n) <= budget && AllSound(disks, n)
    && StageHolds(files, parts, n) && Recorded(uploaded, descriptors, files, sha)
  }

  lemma TakenIsSoFar(
    parts: seq<Part>, n: nat, descriptors: V.Descriptors, budget: nat, sha: F.Content -> string, disks: seq<F.Disk>,
    uploaded: map<string, Resource>, total: nat, files: F.Files, resource: Resource)
    requires SoFar(parts, n, descriptors, budget, sha, disks, uploaded, total, files) && n < |parts|
    requires Fits(parts[n], descriptors, uploaded.Keys, budget - total, sha) && disks[n].Sound?
    requires resource.size == |parts[n].body|
    requires Recorded(uploaded[parts[n].id := resource], descriptors, files[parts[n].id := parts[n].body], sha)
    ensures SoFar(parts, n + 1, descriptors, budget, sha, disks, uploaded[parts[n].id := resource],
                  total + resource.size, files[parts[n].id := parts[n].body])
  {
    PartIdsStep(parts, n);
    StageGrows(parts, n, files, files[parts[n].id := parts[n].body]);
  }

  lemma RejectedEndsIt(
    parts: seq<Part>, n: nat, descriptors: V.Descriptors, budget: nat, sha: F.Content -> string, disks: seq<F.Disk>,
    uploaded: map<string, Resource>, total: nat, files: F.Files, error: Error)
    requires SoFar(parts, n, descriptors, budget, sha, disks, uploaded, total, files) && n < |parts|
    requires Fits(parts[n], descriptors, uploaded.Keys, budget - total, sha) ==> !disks[n].Sound?
    requires error == ResourcesTooLarge ==> parts[n].AttachmentPart? && budget - total < |parts[n].body|
    requires error == Storage ==> disks[n].Faulty?
    ensures !(AllFit(parts, |parts|, descriptors, budget, sha) && AllSound(disks, |disks|))
    ensures error == ResourcesTooLarge ==> OverBudget(parts, budget)
    ensures error == Storage ==> !AllSound(disks, |disks|)
  {
    if disks[n].Sound? { FitIsCut(parts, n + 1, |parts|, descriptors, budget, sha); }
    if error == ResourcesTooLarge { BudgetBreaksAt(parts, budget, n); }
  }

  lemma SoFarIsWithin(
    parts: seq<Part>, n: nat, descriptors: V.Descriptors, budget: nat, sha: F.Content -> string, disks: seq<F.Disk>,
    uploaded: map<string, Resource>, total: nat, files: F.Files)
    requires SoFar(parts, n, descriptors, budget, sha, disks, uploaded, total, files)
    ensures total <= budget && Recorded(uploaded, descriptors, files, sha)
  {
  }

  lemma NothingTaken(
    parts: seq<Part>, descriptors: V.Descriptors, budget: nat, sha: F.Content -> string, disks: seq<F.Disk>)
    requires 1 <= |parts| == |disks| && parts[0].SnapshotPart?
    ensures SoFar(parts, 1, descriptors, budget, sha, disks, map[], 0, map[])
  {
    assert Total(parts, 1) == 0;
    assert forall id :: id !in PartIds(parts, 1);
    assert PartIds(parts, 1) == {};
  }

  /** The body of the loop: one part more, or the end of the upload. */
  method TakePart(
    parts: seq<Part>, n: nat, descriptors: V.Descriptors, budget: nat, uploaded: map<string, Resource>, total: nat,
    stage: F.Stage, sha: F.Content -> string, now: int, disks: seq<F.Disk>)
    returns (r: Taken)
    requires Checked(descriptors) && stage.Ready() && n < |parts|
    requires SoFar(parts, n, descriptors, budget, sha, disks, uploaded, total, stage.Files())
    modifies stage.store`staging
    ensures stage.Ready()
    ensures r.Took? ==>
              parts[n].AttachmentPart? &&
              SoFar(parts, n + 1, descriptors, budget, sha, disks, uploaded[parts[n].id := r.resource],
                    total + r.resource.size, stage.Files())
    ensures r.Rejected? ==> !(AllFit(parts, |parts|, descriptors, budget, sha) && AllSound(disks, |disks|))
    ensures r == Rejected(ResourcesTooLarge) ==> OverBudget(parts, budget)
    ensures r == Rejected(Storage) ==> !AllSound(disks, |disks|)
  {
    ghost var before := stage.Files();
    SoFarIsWithin(parts, n, descriptors, budget, sha, disks, uploaded, total, before);
    if !parts[n].AttachmentPart? {
      RejectedEndsIt(parts, n, descriptors, budget, sha, disks, uploaded, total, before, Invalid);
      return Rejected(Invalid);
    }
    r := TakeAttachment(parts[n], descriptors, uploaded, budget - total, stage, sha, now, disks[n]);
    if r.Took? {
      TakenIsSoFar(parts, n, descriptors, budget, sha, disks, uploaded, total, before, r.resource);
    } else {
      RejectedEndsIt(parts, n, descriptors, budget, sha, disks, uploaded, total, before, r.error);
    }
  }

  /** The loop over the parts after the snapshot. */
  method TakeAttachments(
    parts: seq<Part>, descriptors: V.Descriptors, budget: nat,
    stage: F.Stage, sha: F.Content -> string, now: int, disks: seq<F.Disk>)
    returns (uploaded: map<string, Resource>, error: Option<Error>)
    requires parts != [] && parts[0].SnapshotPart? && Checked(descriptors)
    requires stage.Ready() && stage.Files() == map[] && |disks| == |parts|
    modifies stage.store`staging
    ensures error.None? <==> AllFit(parts, |parts|, descriptors, budget, sha) && AllSound(disks, |disks|)
    ensures error.None? ==>
              && stage.Ready() && StageHolds(stage.Files(), parts, |parts|)
              && Recorded(uploaded, descriptors, stage.Files(), sha)
    ensures error == Some(ResourcesTooLarge) ==> OverBudget(parts, budget)
    ensures error == Some(Storage) ==> !AllSound(disks, |disks|)
  {
    uploaded := map[];
    var total: nat := 0;
    NothingTaken(parts, descriptors, budget, sha, disks);
    for n := 1 to |parts|
      invariant stage.Ready()
      invariant SoFar(parts, n, descriptors, budget, sha, disks, uploaded, total, stage.Files())
    {
      var taken := TakePart(parts, n, descriptors, budget, uploaded, total, stage, sha, now, disks);
      if taken.Rejected? {
        return uploaded, Some(taken.error);
      }
      total := total + taken.resource.size;
      uploaded := uploaded[parts[n].id := taken.resource];
    }
    return uploaded, None;
  }

  /** The first part: a snapshot of the right size that passes its check. */
  method TakeSnapshot(parts: seq<Part>, limits: Limits) returns (descriptors: V.Descriptors, error: Option<Error>)
    requires forall i :: 0 <= i < |parts| && parts[i].SnapshotPart? && parts[i].parsed.Some? ==>
               V.TextsAreBytes(parts[i].parsed.value)
    ensures error.None? <==> SnapshotFirst(parts, limits)
    ensures error.Some? ==> error.value in {Invalid, SnapshotTooLarge}
    ensures error.None? ==>
      var a := parts[0].parsed.value.attachments;
      V.AttachmentsOk(a) && V.Indexes(descriptors, a) && Checked(descriptors) && |descriptors| == |a|
  {
    descriptors := map[];
    if parts == [] || !parts[0].SnapshotPart? {
      return descriptors, Some(Invalid);
    }
    var first := parts[0];
    if first.size > limits.maxSnapshotBytes {
      return descriptors, Some(SnapshotTooLarge);
    }
    var parsed := V.ParseConversationSnapshotResources(if first.size == 0 then None else first.parsed);
    if parsed.None? {
      return descriptors, Some(Invalid);
    }
    CheckedByIndex(parsed.value, first.parsed.value.attachments);
    return parsed.value, None;
  }

  /** Resource k has the id, name and type of attachment k and the length and hash of its staged body. */
  ghost predicate Lists(resources: seq<Resource>, a: seq<V.Descriptor>, files: F.Files, sha: F.Content -> string) {
    |resources| == |a| && forall k :: 0 <= k < |a| ==>
      && a[k].id in files && a[k].size == |files[a[k].id]|
      && resources[k].id == a[k].id && resources[k].name == a[k].name && resources[k].mimeType == a[k].mimeType
      && resources[k].size == |files[a[k].id]| && resources[k].sha256 == F.Lower(sha(files[a[k].id]))
  }

  /** All that follows the snapshot: the parts, the count and the list. */
  method TakeBody(
    parts: seq<Part>, a: seq<V.Descriptor>, descriptors: V.Descriptors, budget: nat,
    stage: F.Stage, sha: F.Content -> string, now: int, disks: seq<F.Disk>)
    returns (resources: seq<Resource>, error: Option<Error>)
    requires parts != [] && parts[0].SnapshotPart?
    requires V.AttachmentsOk(a) && V.Indexes(descriptors, a) && Checked(descriptors) && |descriptors| == |a|
    requires stage.Ready() && stage.Files() == map[] && |disks| == |parts|
    modifies stage.store`staging
    ensures error.None? <==>
              BodyOk(parts, |parts|, a, budget, sha) && |parts| - 1 == |a| && AllSound(disks, |disks|)
    ensures error.None? ==> stage.Ready() && StageHolds(stage.Files(), parts, |parts|)
    ensures error.None? ==> Lists(resources, a, stage.Files(), sha)
    ensures error == Some(ResourcesTooLarge) ==> OverBudget(parts, budget)
    ensures error == Some(Storage) ==> !AllSound(disks, |disks|)
  {
    AllFitIsBodyOk(parts, |parts|, a, descriptors, budget, sha);
    var uploaded;
    uploaded, error := TakeAttachments(parts, descriptors, budget, stage, sha, now, disks);
    if error.Some? {
      return [], error;
    }
    BodyParts(parts, |parts|, a, budget, sha);
    assert |uploaded| == |uploaded.Keys| && |descriptors| == |descriptors.Keys|;
    if |uploaded| != |descriptors| {
      return [], Some(Invalid);
    }
    SubsetOfSameSize(uploaded.Keys, descriptors.Keys);
    resources := ListResources(a, uploaded);
  }

  /** Accepts exactly the acceptable uploads, when the disk takes them. The answer lists the
      attachments in the snapshot's order; the stage then holds exactly their bodies. The allowance
      given to each write is what the budget has left, never negative; it is only exceeded when the
      parts up to one fit and the next does not. */
  method DecodeConversationShare(
    parts: seq<Part>, limits: Limits, stage: F.Stage, sha: F.Content -> string, now: int, disks: seq<F.Disk>)
    returns (r: Result)
    requires stage.Ready() && stage.Files() == map[] && |disks| == |parts|
    requires forall i :: 0 <= i < |parts| && parts[i].SnapshotPart? && parts[i].parsed.Some? ==>
               V.TextsAreBytes(parts[i].parsed.value)
    modifies stage.store`staging
    ensures r.Ok? <==> Acceptable(parts, limits, sha) && AllSound(disks, |disks|)
    ensures r.Ok? ==> r.snapshot == parts[0].parsed.value && stage.Ready() && StageHolds(stage.Files(), parts, |parts|)
    ensures r.Ok? ==> Lists(r.resources, parts[0].parsed.value.attachments, stage.Files(), sha)
    ensures r == Err(ResourcesTooLarge) ==> OverBudget(parts, limits.maxResourceBytes)
    ensures r == Err(Storage) ==> !AllSound(disks, |disks|)
  {
    var descriptors, refused := TakeSnapshot(parts, limits);
    if refused.Some? {
      return Err(refused.value);
    }
    var snapshot := parts[0].parsed.value;
    var resources, error :=
      TakeBody(parts, snapshot.attachments, descriptors, limits.maxResourceBytes, stage, sha, now, disks);
    if error.Some? {
      return Err(error.value);
    }
    return Ok(snapshot, resources);
  }

  method ListResources(a: seq<V.Descriptor>, uploaded: map<string, Resource>) returns (resources: seq<Resource>)
    requires V.Ids(a) <= uploaded.Keys
    ensures |resources| == |a| && forall k :: 0 <= k < |a| ==> a[k].id in uploaded && resources[k] == uploaded[a[k].id]
  {
    resources := [];
    for k := 0 to |a|
      invariant |resources| == k
      invariant forall j :: 0 <= j < k ==> a[j].id in uploaded && resources[j] == uploaded[a[j].id]
    {
      assert a[k].id in V.Ids(a);
      resources := resources + [uploaded[a[k].id]];
    }
  }
}

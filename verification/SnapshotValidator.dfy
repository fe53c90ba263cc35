/** The cross-reference check of an uploaded conversation snapshot, after its JSON was parsed. */
module SnapshotValidator {
  import opened Prelude
  import opened SourceRefs

  const SNAPSHOT_VERSION := 1
  const MAX_NAME_BYTES := 255
  const REASONS: set<string> := {
    "not_found", "forbidden", "unsupported", "too_large", "timeout", "changed", "invalid", "read_failed"}

  datatype Descriptor = Descriptor(
    id: string, name: string, mimeType: string, size: int, sha256: string, sourceRef: string,
    mediaRefs: Option<map<string, string>>)

  datatype Omission = Omission(id: string, sourceRef: string, name: string, reason: string)

  /** A raw JSON member: absent, `null` or of the wrong type, or the list it holds. */
  datatype Raw<T> = Absent | Malformed | Present(items: seq<T>) {
    function Items(): seq<T> { if Present? then items else [] }
  }

  /** `nodes` are the attachment lists of all nodes of all turns, in order. */
  datatype Snapshot = Snapshot(
    version: int, attachments: seq<Descriptor>, omitted: Raw<Omission>, nodes: seq<Raw<string>>)

  predicate LowerHex(s: string, length: nat) {
    |s| == length && forall i :: 0 <= i < |s| ==> '0' <= s[i] <= '9' || 'a' <= s[i] <= 'f'
  }

  predicate MimeToken(s: string) {
    s != "" && forall i :: 0 <= i < |s| ==>
      'a' <= s[i] <= 'z' || 'A' <= s[i] <= 'Z' || '0' <= s[i] <= '9' || s[i] in "!#$&^_.+-"
  }

  /** Type and subtype in lower case. */
  predicate MimeOk(s: string) {
    (exists i :: 0 <= i < |s| && s[i] == '/' && MimeToken(s[..i]) && MimeToken(s[i + 1..])) &&
    forall i :: 0 <= i < |s| ==> !('A' <= s[i] <= 'Z')
  }

  predicate NameOk(s: string) {
    s != "" && |s| <= MAX_NAME_BYTES && !HasAny(s, "/\\") && !HasControl(s)
  }

  predicate StartsWith(s: string, prefix: string) {
    |prefix| <= |s| && s[..|prefix|] == prefix
  }

  predicate IsMedia(mime: string) {
    StartsWith(mime, "image/") || StartsWith(mime, "audio/") || StartsWith(mime, "video/")
  }

  /** The bytes of the white-space rune at the front, 0 if there is none. */
  function FrontSpace(s: string): (n: nat)
    ensures n <= |s|
  {
    if s != "" && s[0] in "\t\n\U{0B}\U{0C}\r " then 1
    else if |s| >= 2 && s[0] == '\U{C2}' && s[1] in "\U{85}\U{A0}" then 2
    else if |s| >= 3 && (
      s[..3] == "\U{E1}\U{9A}\U{80}" || s[..3] == "\U{E2}\U{81}\U{9F}" || s[..3] == "\U{E3}\U{80}\U{80}" ||
      (s[..2] == "\U{E2}\U{80}" && (0x80 <= s[2] as int <= 0x8A || s[2] in "\U{A8}\U{A9}\U{AF}"))) then 3
    else 0
  }

  predicate Blank(s: string) {
    s == "" || (FrontSpace(s) > 0 && Blank(s[FrontSpace(s)..]))
  }

  // ---------------------------------------------------------------- what is valid

  ghost predicate DescriptorOk(d: Descriptor) {
    LowerHex(d.id, 24) && d.size >= 0 && LowerHex(d.sha256, 64) && MimeOk(d.mimeType) && NameOk(d.name) &&
    Accepted(d.sourceRef)
  }

  /** An omission may be anonymous; otherwise it has an identity like an attachment. */
  predicate Anonymous(o: Omission) { o.id == "" && o.sourceRef == "" }

  ghost predicate OmissionOk(o: Omission) {
    NameOk(o.name) && o.reason in REASONS && (!Anonymous(o) ==> LowerHex(o.id, 24) && Accepted(o.sourceRef))
  }

  function Ids(attachments: seq<Descriptor>): set<string> {
    set i | 0 <= i < |attachments| :: attachments[i].id
  }

  function Refs(attachments: seq<Descriptor>): set<string> {
    set i | 0 <= i < |attachments| :: attachments[i].sourceRef
  }

  function OmittedIds(omissions: seq<Omission>): set<string> {
    set i | 0 <= i < |omissions| && !Anonymous(omissions[i]) :: omissions[i].id
  }

  ghost predicate AttachmentsOk(a: seq<Descriptor>) {
    && (forall i :: 0 <= i < |a| ==> DescriptorOk(a[i]))
    && (forall i, j :: 0 <= i < j < |a| ==> a[i].id != a[j].id && a[i].sourceRef != a[j].sourceRef)
  }

  ghost predicate OmissionsOk(a: seq<Descriptor>, os: seq<Omission>) {
    && (forall i :: 0 <= i < |os| ==> OmissionOk(os[i]))
    && (forall i :: 0 <= i < |os| && !Anonymous(os[i]) ==> os[i].id !in Ids(a) && os[i].sourceRef !in Refs(a))
    && OmissionsDistinct(os)
  }

  predicate OmissionsDistinct(os: seq<Omission>) {
    forall i, j :: 0 <= i < j < |os| && !Anonymous(os[i]) && !Anonymous(os[j]) ==>
      os[i].id != os[j].id && os[i].sourceRef != os[j].sourceRef
  }

  /** A media reference points at a media attachment or at an omission. */
  predicate MediaTargetOk(a: seq<Descriptor>, omitted: set<string>, raw: string, id: string) {
    !Blank(raw) && !HasControl(raw) &&
    ((id in omitted && id !in Ids(a)) || exists i :: 0 <= i < |a| && a[i].id == id && IsMedia(a[i].mimeType))
  }

  predicate MediaOk(a: seq<Descriptor>, omitted: set<string>, d: Descriptor) {
    d.mediaRefs.Some? ==>
      d.mimeType == "text/html" &&
      forall raw <- d.mediaRefs.value :: MediaTargetOk(a, omitted, raw, d.mediaRefs.value[raw])
  }

  predicate NodeOk(known: set<string>, node: Raw<string>) {
    && !node.Malformed?
    && (forall i :: 0 <= i < |node.Items()| ==> node.Items()[i] in known)
    && (forall i, j :: 0 <= i < j < |node.Items()| ==> node.Items()[i] != node.Items()[j])
  }

  ghost predicate Valid(s: Snapshot) {
    && s.version == SNAPSHOT_VERSION
    && AttachmentsOk(s.attachments)
    && !s.omitted.Malformed?
    && OmissionsOk(s.attachments, s.omitted.Items())
    && (forall i :: 0 <= i < |s.attachments| ==>
          MediaOk(s.attachments, OmittedIds(s.omitted.Items()), s.attachments[i]))
    && (forall i :: 0 <= i < |s.nodes| ==> NodeOk(Ids(s.attachments) + OmittedIds(s.omitted.Items()), s.nodes[i]))
  }

  /** The bytes of all texts of a snapshot that was valid UTF-8. */
  ghost predicate TextsAreBytes(s: Snapshot) {
    && (forall i :: 0 <= i < |s.attachments| ==> IsBytes(s.attachments[i].sourceRef))
    && (forall i :: 0 <= i < |s.omitted.Items()| ==> IsBytes(s.omitted.Items()[i].sourceRef))
  }

  // ---------------------------------------------------------------- the check

  type Descriptors = map<string, Descriptor>

  predicate Indexes(m: Descriptors, a: seq<Descriptor>) {
    m.Keys == Ids(a) && forall i :: 0 <= i < |a| ==> a[i].id in m && m[a[i].id] == a[i]
  }

  method ScanAttachments(a: seq<Descriptor>) returns (r: Option<(Descriptors, set<string>)>)
    requires forall i :: 0 <= i < |a| ==> IsBytes(a[i].sourceRef)
    ensures r.Some? <==> AttachmentsOk(a)
    ensures r.Some? ==> Indexes(r.value.0, a) && r.value.1 == Refs(a)
  {
    var descriptors: Descriptors := map[];
    var sourceRefs: set<string> := {};
    for i := 0 to |a|
      invariant AttachmentsOk(a[..i]) && Indexes(descriptors, a[..i]) && sourceRefs == Refs(a[..i])
    {
      var d := a[i];
      assert a[..i + 1] == a[..i] + [d];
      var refOk := CanonicalChatSourceRef(d.sourceRef);
      assert d.id in descriptors <==> d.id in Ids(a[..i]);
      if !LowerHex(d.id, 24) || d.id in descriptors || d.size < 0 || !LowerHex(d.sha256, 64) ||
         !MimeOk(d.mimeType) || !NameOk(d.name) || !refOk || d.sourceRef in sourceRefs {
        PrefixOfValid(a, i);
        return None;
      }
      AttachmentsGrow(a[..i], d, descriptors);
      descriptors := descriptors[d.id := d];
      sourceRefs := sourceRefs + {d.sourceRef};
    }
    assert a[..|a|] == a;
    return Some((descriptors, sourceRefs));
  }

  lemma AttachmentsGrow(a: seq<Descriptor>, d: Descriptor, m: Descriptors)
    requires AttachmentsOk(a) && Indexes(m, a)
    requires DescriptorOk(d) && d.id !in Ids(a) && d.sourceRef !in Refs(a)
    ensures AttachmentsOk(a + [d]) && Indexes(m[d.id := d], a + [d])
    ensures Refs(a + [d]) == Refs(a) + {d.sourceRef}
  {
    ScanOne(a, d);
    forall i | 0 <= i < |a|
      ensures a[i].id in Ids(a) && a[i].sourceRef in Refs(a)
    {
    }
  }

  lemma PrefixOfValid(a: seq<Descriptor>, i: nat)
    requires i < |a|
    ensures AttachmentsOk(a) ==> DescriptorOk(a[i]) && a[i].id !in Ids(a[..i]) && a[i].sourceRef !in Refs(a[..i])
  {
  }

  lemma ScanOne(a: seq<Descriptor>, d: Descriptor)
    ensures Ids(a + [d]) == Ids(a) + {d.id} && Refs(a + [d]) == Refs(a) + {d.sourceRef}
  {
    var b := a + [d];
    assert b[|a|] == d;
    assert forall i :: 0 <= i < |a| ==> b[i] == a[i];
    forall id | id in Ids(a) + {d.id} ensures id in Ids(b) {
      if id in Ids(a) { var i :| 0 <= i < |a| && a[i].id == id; assert b[i].id == id; }
    }
    forall ref | ref in Refs(a) + {d.sourceRef} ensures ref in Refs(b) {
      if ref in Refs(a) { var i :| 0 <= i < |a| && a[i].sourceRef == ref; assert b[i].sourceRef == ref; }
    }
  }

  function OmittedRefs(os: seq<Omission>): set<string> {
    set i | 0 <= i < |os| && !Anonymous(os[i]) :: os[i].sourceRef
  }

  method ScanOmissions(
    a: seq<Descriptor>, descriptors: Descriptors, refs: set<string>, os: seq<Omission>) returns (r: Option<set<string>>)
    requires Indexes(descriptors, a) && refs == Refs(a)
    requires forall i :: 0 <= i < |os| ==> IsBytes(os[i].sourceRef)
    ensures r.Some? <==> OmissionsOk(a, os)
    ensures r.Some? ==> r.value == OmittedIds(os)
  {
    var omitted: set<string> := {};
    var sourceRefs := refs;
    for i := 0 to |os|
      invariant OmissionsOk(a, os[..i]) && omitted == OmittedIds(os[..i]) && sourceRefs == refs + OmittedRefs(os[..i])
    {
      var o := os[i];
      assert os[..i + 1] == os[..i] + [o];
      OmissionPrefix(a, os, i);
      OmitOne(os[..i], o);
      if !NameOk(o.name) || o.reason !in REASONS {
        return None;
      }
      if o.id == "" && o.sourceRef == "" {
        OmissionsGrow(a, os[..i], o);
        continue;
      }
      var refOk := CanonicalChatSourceRef(o.sourceRef);
      if !LowerHex(o.id, 24) || !refOk || o.id in descriptors || o.id in omitted || o.sourceRef in sourceRefs {
        return None;
      }
      OmissionsGrow(a, os[..i], o);
      omitted := omitted + {o.id};
      sourceRefs := sourceRefs + {o.sourceRef};
    }
    assert os[..|os|] == os;
    return Some(omitted);
  }

  lemma DistinctGrows(os: seq<Omission>, o: Omission)
    requires OmissionsDistinct(os)
    requires !Anonymous(o) ==> o.id !in OmittedIds(os) && o.sourceRef !in OmittedRefs(os)
    ensures OmissionsDistinct(os + [o])
  {
    forall i | 0 <= i < |os| && !Anonymous(os[i])
      ensures os[i].id in OmittedIds(os) && os[i].sourceRef in OmittedRefs(os)
    {
    }
  }

  lemma OmissionsGrow(a: seq<Descriptor>, os: seq<Omission>, o: Omission)
    requires OmissionsOk(a, os) && OmissionOk(o)
    requires !Anonymous(o) ==> o.id !in Ids(a) + OmittedIds(os) && o.sourceRef !in Refs(a) + OmittedRefs(os)
    ensures OmissionsOk(a, os + [o])
  {
    DistinctGrows(os, o);
    forall i | 0 <= i < |os + [o]|
      ensures OmissionOk((os + [o])[i])
    {
      if i < |os| { assert OmissionOk(os[i]); }
    }
  }

  lemma OmissionPrefix(a: seq<Descriptor>, os: seq<Omission>, i: nat)
    requires i < |os|
    ensures OmissionsOk(a, os) ==> OmissionOk(os[i]) && (!Anonymous(os[i]) ==>
              os[i].id !in Ids(a) && os[i].sourceRef !in Refs(a) &&
              os[i].id !in OmittedIds(os[..i]) && os[i].sourceRef !in OmittedRefs(os[..i]))
  {
  }

  lemma OmitOne(os: seq<Omission>, o: Omission)
    ensures OmittedIds(os + [o]) == OmittedIds(os) + (if Anonymous(o) then {} else {o.id})
    ensures OmittedRefs(os + [o]) == OmittedRefs(os) + (if Anonymous(o) then {} else {o.sourceRef})
  {
    var b := os + [o];
    assert b[|os|] == o;
    assert forall i :: 0 <= i < |os| ==> b[i] == os[i];
    forall id | id in OmittedIds(os) ensures id in OmittedIds(b) {
      var i :| 0 <= i < |os| && !Anonymous(os[i]) && os[i].id == id;
      assert b[i].id == id;
    }
    forall ref | ref in OmittedRefs(os) ensures ref in OmittedRefs(b) {
      var i :| 0 <= i < |os| && !Anonymous(os[i]) && os[i].sourceRef == ref;
      assert b[i].sourceRef == ref;
    }
  }

  method CheckMedia(
    a: seq<Descriptor>, descriptors: Descriptors, omitted: set<string>, d: Descriptor) returns (ok: bool)
    requires Indexes(descriptors, a)
    ensures ok <==> MediaOk(a, omitted, d)
  {
    if d.mediaRefs.None? {
      return true;
    }
    if d.mimeType != "text/html" {
      return false;
    }
    var refs := d.mediaRefs.value;
    var raws := refs.Keys;
    while raws != {}
      invariant raws <= refs.Keys
      invariant forall raw :: raw in refs && raw !in raws ==> MediaTargetOk(a, omitted, raw, refs[raw])
    {
      var raw :| raw in raws;
      raws := raws - {raw};
      var id := refs[raw];
      if Blank(raw) || HasControl(raw) || (id !in descriptors && id !in omitted) ||
         (id in descriptors && !IsMedia(descriptors[id].mimeType)) {
        return false;
      }
    }
    return true;
  }

  method CheckNode(descriptors: Descriptors, omitted: set<string>, node: Raw<string>) returns (ok: bool)
    ensures ok <==> NodeOk(descriptors.Keys + omitted, node)
  {
    if node.Malformed? {
      return false;
    }
    var ids := node.Items();
    var seen: set<string> := {};
    for i := 0 to |ids|
      invariant forall k :: 0 <= k < i ==> ids[k] in descriptors.Keys + omitted
      invariant forall j, k :: 0 <= j < k < i ==> ids[j] != ids[k]
      invariant forall id :: id in seen <==> exists k :: 0 <= k < i && ids[k] == id
    {
      if ids[i] in seen || (ids[i] !in descriptors && ids[i] !in omitted) {
        return false;
      }
      seen := seen + {ids[i]};
    }
    return true;
  }

  /** Accepts exactly the valid snapshots, and then answers their descriptors by id. `None` stands
      for a body that is not JSON. */
  method ParseConversationSnapshotResources(parsed: Option<Snapshot>) returns (r: Option<Descriptors>)
    requires parsed.Some? ==> TextsAreBytes(parsed.value)
    ensures r.Some? <==> parsed.Some? && Valid(parsed.value)
    ensures r.Some? ==> Indexes(r.value, parsed.value.attachments)
  {
    if parsed.None? || parsed.value.version != SNAPSHOT_VERSION {
      return None;
    }
    var s := parsed.value;
    var a := s.attachments;
    var scanned := ScanAttachments(a);
    if scanned.None? || s.omitted.Malformed? {
      return None;
    }
    var (descriptors, refs) := scanned.value;
    var omitted := ScanOmissions(a, descriptors, refs, s.omitted.Items());
    if omitted.None? {
      return None;
    }
    for i := 0 to |a|
      invariant forall k :: 0 <= k < i ==> MediaOk(a, omitted.value, a[k])
    {
      var ok := CheckMedia(a, descriptors, omitted.value, a[i]);
      if !ok {
        return None;
      }
    }
    for i := 0 to |s.nodes|
      invariant forall k :: 0 <= k < i ==> NodeOk(descriptors.Keys + omitted.value, s.nodes[k])
    {
      var ok := CheckNode(descriptors, omitted.value, s.nodes[i]);
      if !ok {
        return None;
      }
    }
    return Some(descriptors);
  }

  // ---------------------------------------------------------------- what validity gives

  /** Where an id of a valid snapshot is declared: as an attachment or as an omission. */
  datatype Place = Attachment(index: nat) | Omitted(index: nat)

  predicate DeclaredAt(s: Snapshot, id: string, p: Place) {
    match p
    case Attachment(i) => i < |s.attachments| && s.attachments[i].id == id
    case Omitted(i) => i < |s.omitted.Items()| && !Anonymous(s.omitted.Items()[i]) && s.omitted.Items()[i].id == id
  }

  lemma DeclaredOnce(s: Snapshot, id: string, p: Place, q: Place)
    requires Valid(s) && DeclaredAt(s, id, p) && DeclaredAt(s, id, q)
    ensures p == q
  {
  }

  /** Every node reference of a valid snapshot resolves to exactly one declaration. */
  lemma NodeReferenceResolvesOnce(s: Snapshot, n: nat, k: nat)
    requires Valid(s) && n < |s.nodes| && k < |s.nodes[n].Items()|
    ensures var id := s.nodes[n].Items()[k];
            && (exists p :: DeclaredAt(s, id, p))
            && (forall p, q :: DeclaredAt(s, id, p) && DeclaredAt(s, id, q) ==> p == q)
  {
    var id := s.nodes[n].Items()[k];
    var os := s.omitted.Items();
    assert NodeOk(Ids(s.attachments) + OmittedIds(os), s.nodes[n]);
    if id in Ids(s.attachments) {
      var i :| 0 <= i < |s.attachments| && s.attachments[i].id == id;
      assert DeclaredAt(s, id, Attachment(i));
    } else {
      var i :| 0 <= i < |os| && !Anonymous(os[i]) && os[i].id == id;
      assert DeclaredAt(s, id, Omitted(i));
    }
    forall p, q | DeclaredAt(s, id, p) && DeclaredAt(s, id, q)
      ensures p == q
    {
      DeclaredOnce(s, id, p, q);
    }
  }

  lemma HtmlIsNotMedia()
    ensures !IsMedia("text/html")
  {
    assert "text/html"[0] != "image/"[0] && "text/html"[0] != "audio/"[0] && "text/html"[0] != "video/"[0];
  }

  lemma MediaTargetFound(a: seq<Descriptor>, omitted: set<string>, raw: string, id: string, k: nat)
    requires MediaTargetOk(a, omitted, raw, id) && k < |a| && a[k].id == id
    requires forall i, j :: 0 <= i < j < |a| ==> a[i].id != a[j].id
    ensures IsMedia(a[k].mimeType)
  {
    assert id in Ids(a);
    var j :| 0 <= j < |a| && a[j].id == id && IsMedia(a[j].mimeType);
    assert j == k;
  }

  /** A media reference of a valid snapshot never resolves to text that could run: its target is an
      image, audio or video attachment, or an omission, and its source is HTML. */
  lemma MediaReferenceIsMedia(s: Snapshot, i: nat, raw: string, p: Place)
    requires Valid(s) && i < |s.attachments|
    requires s.attachments[i].mediaRefs.Some? && raw in s.attachments[i].mediaRefs.value
    requires DeclaredAt(s, s.attachments[i].mediaRefs.value[raw], p)
    ensures s.attachments[i].mimeType == "text/html"
    ensures p.Attachment? ==> IsMedia(s.attachments[p.index].mimeType) && p.index != i
  {
    assert MediaOk(s.attachments, OmittedIds(s.omitted.Items()), s.attachments[i]);
    HtmlIsNotMedia();
    if p.Attachment? {
      MediaTargetFound(
        s.attachments, OmittedIds(s.omitted.Items()), raw, s.attachments[i].mediaRefs.value[raw], p.index);
    }
  }
}

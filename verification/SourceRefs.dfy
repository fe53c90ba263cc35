/** Source references of a conversation snapshot: relative paths in percent-encoded form
    (section 2.1 of RFC 3986).

    Strings are byte strings here: every character is a byte, 0 to 255. */
module SourceRefs {
  import opened Prelude

  predicate IsBytes(s: string) {
    forall i :: 0 <= i < |s| ==> s[i] as int < 256
  }

  // ---------------------------------------------------------------- percent-encoding

  predicate IsHex(c: char) {
    '0' <= c <= '9' || 'a' <= c <= 'f' || 'A' <= c <= 'F'
  }

  function HexValue(c: char): (v: nat)
    requires IsHex(c)
    ensures v < 16
  {
    if '0' <= c <= '9' then c as int - '0' as int
    else if 'a' <= c <= 'f' then c as int - 'a' as int + 10
    else c as int - 'A' as int + 10
  }

  function UpperHex(v: nat): (c: char)
    requires v < 16
    ensures IsHex(c) && HexValue(c) == v
  {
    if v < 10 then (v + '0' as int) as char else (v - 10 + 'A' as int) as char
  }

  /** Undoes one layer of percent-encoding, or fails on a malformed escape. A decoding that
      changes anything strictly shortens the text. */
  function PathUnescape(s: string): (r: Option<string>)
    ensures r.Some? && r.value != s ==> |r.value| < |s|
    ensures r.Some? ==> |r.value| <= |s| && (s != "" ==> r.value != "")
    ensures r.Some? && IsBytes(s) ==> IsBytes(r.value)
  {
    if s == "" then Some("")
    else if s[0] == '%' then
      if |s| < 3 || !IsHex(s[1]) || !IsHex(s[2]) then None
      else
        var rest := PathUnescape(s[3..]);
        if rest.None? then None
        else Some([(16 * HexValue(s[1]) + HexValue(s[2])) as char] + rest.value)
    else
      var rest := PathUnescape(s[1..]);
      if rest.None? then None else
      assert s == [s[0]] + s[1..];
      Some([s[0]] + rest.value)
  }

  /** The bytes a path segment carries unescaped. */
  predicate Plain(c: char) {
    'a' <= c <= 'z' || 'A' <= c <= 'Z' || '0' <= c <= '9' || c in "-_.~$&+:=@"
  }

  function EscapeByte(c: char): string
    requires c as int < 256
  {
    if Plain(c) then [c] else ['%', UpperHex(c as int / 16), UpperHex(c as int % 16)]
  }

  function PathEscape(s: string): string
    requires IsBytes(s)
  {
    if s == "" then "" else EscapeByte(s[0]) + PathEscape(s[1..])
  }

  lemma HexPair(c: char)
    requires c as int < 256
    ensures (16 * HexValue(UpperHex(c as int / 16)) + HexValue(UpperHex(c as int % 16))) as char == c
  {
  }

  lemma PairDecodes(a: char, b: char, rest: string)
    requires IsHex(a) && IsHex(b) && PathUnescape(rest).Some?
    ensures PathUnescape(['%', a, b] + rest)
         == Some([(16 * HexValue(a) + HexValue(b)) as char] + PathUnescape(rest).value)
  {
    var s := ['%', a, b] + rest;
    assert |s| >= 3 && s[0] == '%' && s[1] == a && s[2] == b;
    assert s[3..] == rest;
  }

  lemma PlainDecodes(c: char, rest: string)
    requires c != '%' && PathUnescape(rest).Some?
    ensures PathUnescape([c] + rest) == Some([c] + PathUnescape(rest).value)
  {
    assert ([c] + rest)[1..] == rest;
  }

  lemma HexDecodes(c: char, rest: string)
    requires c as int < 256 && PathUnescape(rest).Some?
    ensures PathUnescape(['%', UpperHex(c as int / 16), UpperHex(c as int % 16)] + rest)
         == Some([c] + PathUnescape(rest).value)
  {
    PairDecodes(UpperHex(c as int / 16), UpperHex(c as int % 16), rest);
    HexPair(c);
  }

  lemma EscapedByteDecodes(c: char, rest: string)
    requires c as int < 256 && PathUnescape(rest).Some?
    ensures PathUnescape(EscapeByte(c) + rest) == Some([c] + PathUnescape(rest).value)
  {
    if Plain(c) { PlainDecodes(c, rest); } else { HexDecodes(c, rest); }
  }

  /** Escaping and unescaping are a round trip on every byte string. */
  lemma {:induction false} EscapeRoundTrip(s: string)
    requires IsBytes(s)
    ensures PathUnescape(PathEscape(s)) == Some(s)
  {
    if s != "" {
      EscapeRoundTrip(s[1..]);
      EscapedByteDecodes(s[0], PathEscape(s[1..]));
      assert s == [s[0]] + s[1..];
    }
  }

  /** Sections 2.3 and 2.2 of RFC 3986. */
  predicate Unreserved(c: char) {
    'A' <= c <= 'Z' || 'a' <= c <= 'z' || '0' <= c <= '9' || c in "-._~"
  }

  predicate SubDelim(c: char) { c in "!$&'()*+,;=" }

  /** What section 3.3 of RFC 3986 lets a segment carry as it is, without the seven sub-delimiters that
      Go encodes all the same. */
  predicate Carried(c: char) {
    (Unreserved(c) || SubDelim(c) || c == ':' || c == '@') && c !in "!'()*,;"
  }

  /** The bytes of a text that have to be encoded. */
  function Others(s: string): string {
    if s == "" then "" else (if Carried(s[0]) then "" else [s[0]]) + Others(s[1..])
  }

  lemma PlainIsCarried(c: char)
    ensures Plain(c) <==> Carried(c)
  {
  }

  lemma {:induction false} OthersCount(s: string)
    ensures |Others(s)| == 0 <==> forall c <- s :: Carried(c)
  {
    if s != "" {
      OthersCount(s[1..]);
      assert s == [s[0]] + s[1..];
    }
  }

  /** Encoding writes three bytes for each byte that is not carried, and one, the same, for each other: a
      text is its own encoding exactly if all its bytes are carried. */
  lemma {:induction false} EncodingGrows(s: string)
    requires IsBytes(s)
    ensures |PathEscape(s)| == |s| + 2 * |Others(s)|
    ensures PathEscape(s) == s <==> forall c <- s :: Carried(c)
  {
    OthersCount(s);
    if s != "" {
      EncodingGrows(s[1..]);
      PlainIsCarried(s[0]);
      if Carried(s[0]) && Others(s[1..]) == "" { assert s == [s[0]] + s[1..]; }
    }
  }

  // ---------------------------------------------------------------- bytes and runes

  /** A control character of the text: the C0 set and DEL as bytes, the C1 set in UTF-8. The byte
      0xC2 is never a continuation byte, so this needs no decoding from the start. */
  predicate ControlAt(s: string, i: nat)
    requires i < |s|
  {
    s[i] as int < 0x20 || s[i] as int == 0x7F ||
    (s[i] as int == 0xC2 && i + 1 < |s| && 0x80 <= s[i + 1] as int <= 0x9F)
  }

  predicate HasControl(s: string) {
    exists i: nat :: i < |s| && ControlAt(s, i)
  }

  predicate HasAny(s: string, bad: string) {
    exists c <- s :: c in bad
  }

  predicate Tail(s: string, i: nat, lo: int, hi: int) {
    i < |s| && lo <= s[i] as int <= hi
  }

  /** The length of the well-formed UTF-8 sequence at the front, 0 if there is none. */
  function FrontRune(s: string): (n: nat)
    requires s != ""
    ensures n <= 4 && n <= |s|
  {
    var b := s[0] as int;
    if b < 0x80 then 1
    else if 0xC2 <= b <= 0xDF then (if Tail(s, 1, 0x80, 0xBF) then 2 else 0)
    else if 0xE0 <= b <= 0xEF then
      var lo := if b == 0xE0 then 0xA0 else 0x80;
      var hi := if b == 0xED then 0x9F else 0xBF;
      if Tail(s, 1, lo, hi) && Tail(s, 2, 0x80, 0xBF) then 3 else 0
    else if 0xF0 <= b <= 0xF4 then
      var lo := if b == 0xF0 then 0x90 else 0x80;
      var hi := if b == 0xF4 then 0x8F else 0xBF;
      if Tail(s, 1, lo, hi) && Tail(s, 2, 0x80, 0xBF) && Tail(s, 3, 0x80, 0xBF) then 4 else 0
    else 0
  }

  predicate ValidUtf8(s: string) {
    s == "" || (FrontRune(s) > 0 && ValidUtf8(s[FrontRune(s)..]))
  }

  // ---------------------------------------------------------------- splitting

  function Split(s: string): (segments: seq<string>)
    ensures |segments| > 0
  {
    if s == "" then [""]
    else
      var rest := Split(s[1..]);
      if s[0] == '/' then [""] + rest else [[s[0]] + rest[0]] + rest[1..]
  }

  function Join(segments: seq<string>): string
    requires |segments| > 0
  {
    if |segments| == 1 then segments[0] else segments[0] + "/" + Join(segments[1..])
  }

  lemma {:induction false} JoinSplit(s: string)
    ensures Join(Split(s)) == s
    ensures forall segment <- Split(s) :: '/' !in segment
  {
    if s != "" {
      JoinSplit(s[1..]);
      var rest := Split(s[1..]);
      if s[0] == '/' {
        assert ([""] + rest)[1..] == rest;
        assert s == "" + "/" + s[1..];
      } else {
        var parts := [[s[0]] + rest[0]] + rest[1..];
        assert parts[1..] == rest[1..];
        assert s == [s[0]] + s[1..];
        if |rest| > 1 { assert Join(parts) == [s[0]] + rest[0] + "/" + Join(rest[1..]); }
      }
    }
  }

  // ---------------------------------------------------------------- what is accepted

  const MAX_REFERENCE_BYTES := 2048
  /** Decodings after the first that may still change the text. */
  const MAX_DEPTH := 4

  /** Text that is safe as one path segment at some layer of decoding. */
  predicate Clean(d: string) {
    d != "" && d != "." && d != ".." && d != ".tools" && d != ".btw" && d != ".explain" &&
    !HasAny(d, "/\\:") && !HasControl(d)
  }

  /** A text and all its further decodings, until decoding fails or changes nothing. */
  function Layers(d: string): (layers: seq<string>)
    ensures |layers| > 0
    decreases |d|
  {
    var next := PathUnescape(d);
    if next.None? || next.value == d then [d] else [d] + Layers(next.value)
  }

  ghost predicate SegmentAccepted(segment: string) {
    && segment != "" && !HasAny(segment, "\\?#") && !HasControl(segment)
    && PathUnescape(segment).Some?
    && var d := PathUnescape(segment).value;
    && IsBytes(d) && ValidUtf8(d) && PathEscape(d) == segment
    && |Layers(d)| <= MAX_DEPTH + 1
    && forall layer <- Layers(d) :: Clean(layer)
  }

  ghost predicate Accepted(value: string) {
    0 < |value| <= MAX_REFERENCE_BYTES && forall segment <- Split(value) :: SegmentAccepted(segment)
  }

  method SettlesClean(first: string) returns (ok: bool)
    ensures ok <==> |Layers(first)| <= MAX_DEPTH + 1 && forall layer <- Layers(first) :: Clean(layer)
  {
    var decoded := first;
    var depth := 0;
    ghost var passed: seq<string> := [];
    while true
      invariant Layers(first) == passed + Layers(decoded)
      invariant |passed| == depth <= MAX_DEPTH
      invariant forall layer <- passed :: Clean(layer)
      decreases |decoded|
    {
      assert Layers(decoded)[0] == decoded && decoded in Layers(first);
      if decoded == "" || decoded == "." || decoded == ".." ||
         decoded == ".tools" || decoded == ".btw" || decoded == ".explain" ||
         HasAny(decoded, "/\\:") || HasControl(decoded) {
        return false;
      }
      var next := PathUnescape(decoded);
      if next.None? || next.value == decoded {
        assert Layers(decoded) == [decoded];
        return true;
      }
      if depth >= MAX_DEPTH {
        assert |Layers(decoded)| == 1 + |Layers(next.value)|;
        return false;
      }
      passed := passed + [decoded];
      decoded := next.value;
      depth := depth + 1;
    }
  }

  /** The body of the loop over the segments. */
  method SegmentIsCanonical(segment: string) returns (ok: bool)
    requires IsBytes(segment)
    ensures ok <==> SegmentAccepted(segment)
  {
    if segment == "" || HasAny(segment, "\\?#") || HasControl(segment) {
      return false;
    }
    var decoded := PathUnescape(segment);
    if decoded.None? || !ValidUtf8(decoded.value) || PathEscape(decoded.value) != segment {
      return false;
    }
    ok := SettlesClean(decoded.value);
  }

  ghost predicate AllAccepted(segments: seq<string>) {
    forall segment <- segments :: SegmentAccepted(segment)
  }

  lemma OneMoreAccepted(segments: seq<string>, i: nat)
    requires i < |segments|
    ensures AllAccepted(segments[..i + 1]) <==> AllAccepted(segments[..i]) && SegmentAccepted(segments[i])
    ensures AllAccepted(segments) ==> SegmentAccepted(segments[i])
  {
    assert segments[..i + 1] == segments[..i] + [segments[i]];
    assert segments[i] in segments;
  }

  method CanonicalChatSourceRef(value: string) returns (ok: bool)
    requires IsBytes(value)
    ensures ok <==> Accepted(value)
  {
    var segments := Split(value);
    if |value| == 0 || |value| > MAX_REFERENCE_BYTES {
      return false;
    }
    SplitBytes(value);
    for i := 0 to |segments|
      invariant AllAccepted(segments[..i])
    {
      OneMoreAccepted(segments, i);
      ok := SegmentIsCanonical(segments[i]);
      if !ok {
        return false;
      }
    }
    assert segments[..|segments|] == segments;
    return true;
  }

  lemma {:induction false} SplitBytes(s: string)
    requires IsBytes(s)
    ensures forall segment <- Split(s) :: IsBytes(segment)
  {
    if s != "" {
      SplitBytes(s[1..]);
      var rest := Split(s[1..]);
      assert rest[0] in rest && IsBytes([s[0]] + rest[0]);
      forall segment | segment in Split(s) ensures IsBytes(segment) {
        assert segment == "" || segment == [s[0]] + rest[0] || segment in rest;
      }
    }
  }

  // ---------------------------------------------------------------- the main results

  /** The segment after `n` rounds of decoding, as long as every round succeeds. */
  function Iterate(segment: string, n: nat): Option<string> {
    if n == 0 then Some(segment)
    else
      var before := Iterate(segment, n - 1);
      if before.None? then None else PathUnescape(before.value)
  }

  lemma LaterLayers(d: string, layer: string)
    requires PathUnescape(d).Some? && layer in Layers(PathUnescape(d).value)
    ensures layer in Layers(d)
  {
  }

  /** Decoding again and again only ever meets the layers. */
  lemma {:induction false} IterateIsALayer(d: string, n: nat)
    requires Iterate(d, n).Some?
    ensures Iterate(d, n).value in Layers(d)
    decreases n
  {
    if n == 0 {
      assert Layers(d)[0] == d;
    } else {
      IterateShift(d, n - 1);
      var next := PathUnescape(d).value;
      IterateIsALayer(next, n - 1);
      LaterLayers(d, Iterate(next, n - 1).value);
    }
  }

  lemma {:induction false} IterateShift(d: string, n: nat)
    ensures Iterate(d, n + 1) == if PathUnescape(d).Some? then Iterate(PathUnescape(d).value, n) else None
  {
    if n > 0 { IterateShift(d, n - 1); } else { assert Iterate(d, 0) == Some(d); }
  }

  /** Every iterate of repeated decoding of every segment of an accepted reference, however often
      it is decoded, is free of separators, control characters, dot segments and reserved names. */
  lemma AcceptedStaysClean(value: string, segment: string, n: nat)
    requires Accepted(value) && segment in Split(value)
    requires Iterate(segment, n).Some?
    ensures Clean(Iterate(segment, n).value)
  {
    var d := PathUnescape(segment).value;
    IterateIsALayer(segment, n);
    JoinSplit(value);
    if d != segment {
      assert Layers(segment) == [segment] + Layers(d);
      EncodedIsClean(segment);
    } else {
      assert Layers(segment) == [segment] == Layers(d);
    }
  }

  /** The encoded segment itself is clean too: what is not allowed decoded is not there encoded. */
  lemma EncodedIsClean(segment: string)
    requires SegmentAccepted(segment) && '/' !in segment
    ensures Clean(segment)
  {
    var d := PathUnescape(segment).value;
    assert Layers(d)[0] == d && Clean(d);
    NoPercentDecodesToItself(segment);
    if ':' in segment { ColonSurvives(segment); }
  }

  lemma {:induction false} NoPercentDecodesToItself(s: string)
    ensures '%' !in s ==> PathUnescape(s) == Some(s)
  {
    if s != "" && '%' !in s {
      NoPercentDecodesToItself(s[1..]);
      assert s == [s[0]] + s[1..];
    }
  }

  lemma {:induction false} ColonSurvives(s: string)
    requires ':' in s && PathUnescape(s).Some?
    ensures ':' in PathUnescape(s).value
  {
    if s[0] == '%' {
      assert s == s[..3] + s[3..];
      assert ':' in s[3..];
      ColonSurvives(s[3..]);
    } else if s[0] != ':' {
      assert s == [s[0]] + s[1..];
      ColonSurvives(s[1..]);
    }
  }

  /** Acceptance never rests on the depth limit: within five decodings of the segment the text
      no longer changes or no longer decodes. */
  lemma AcceptedSettles(value: string, segment: string)
    requires Accepted(value) && segment in Split(value)
    ensures exists n: nat :: n <= MAX_DEPTH + 1 && SettledAfter(segment, n)
  {
    var d := PathUnescape(segment).value;
    LayersSettle(d);
    SettledShift(segment, |Layers(d)| - 1);
  }

  lemma LayersSettle(d: string)
    ensures SettledAfter(d, |Layers(d)| - 1)
  {
    LayersAreIterates(d, |Layers(d)| - 1);
    LastLayerSettles(d);
  }

  lemma SettledShift(segment: string, n: nat)
    requires PathUnescape(segment).Some? && SettledAfter(PathUnescape(segment).value, n)
    ensures SettledAfter(segment, n + 1)
  {
    IterateShift(segment, n);
    IterateShift(segment, n + 1);
  }

  /** `n` decodings succeed, and one more fails or changes nothing. */
  predicate SettledAfter(segment: string, n: nat) {
    && Iterate(segment, n).Some?
    && (Iterate(segment, n + 1).None? || Iterate(segment, n + 1) == Iterate(segment, n))
  }

  lemma LayersShift(d: string, n: nat)
    requires 0 < n < |Layers(d)|
    ensures PathUnescape(d).Some? && PathUnescape(d).value != d
    ensures n - 1 < |Layers(PathUnescape(d).value)| && Layers(PathUnescape(d).value)[n - 1] == Layers(d)[n]
  {
  }

  lemma {:induction false} LayersAreIterates(d: string, n: nat)
    requires n < |Layers(d)|
    ensures Iterate(d, n) == Some(Layers(d)[n])
    decreases n
  {
    if n > 0 {
      LayersShift(d, n);
      LayersAreIterates(PathUnescape(d).value, n - 1);
      IterateShift(d, n - 1);
    }
  }

  lemma {:induction false} LastLayerSettles(d: string)
    ensures var last := Layers(d)[|Layers(d)| - 1];
            PathUnescape(last).None? || PathUnescape(last) == Some(last)
    decreases |d|
  {
    var next := PathUnescape(d);
    if next.Some? && next.value != d { LastLayerSettles(next.value); }
  }

  function DecodeAll(segments: seq<string>): seq<Option<string>> {
    seq(|segments|, i requires 0 <= i < |segments| => PathUnescape(segments[i]))
  }

  /** Accepted references are canonical: two that name the same decoded path are the same text. */
  lemma AcceptedIsCanonical(v: string, w: string)
    requires Accepted(v) && Accepted(w)
    requires DecodeAll(Split(v)) == DecodeAll(Split(w))
    ensures v == w
  {
    var a, b := Split(v), Split(w);
    assert |a| == |DecodeAll(a)| == |DecodeAll(b)| == |b|;
    forall i | 0 <= i < |a| ensures a[i] == b[i] {
      assert DecodeAll(a)[i] == DecodeAll(b)[i];
      assert a[i] in Split(v) && b[i] in Split(w);
    }
    assert a == b;
    JoinSplit(v);
    JoinSplit(w);
  }
}

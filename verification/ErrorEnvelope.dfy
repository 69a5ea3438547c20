/** `capErrorEnvelope`: cutting an error message to a byte bound without splitting a character or a
    `‹secret:NAME›` marker. A Dafny string is a sequence of Unicode scalar values, so it stands for a
    well-formed JavaScript string; where the code counts UTF-16 units or bytes, so does the model. */
module ErrorEnvelope {
  import opened JsText

  const OPEN: char := '\U{2039}'
  const CLOSE: char := '\U{203A}'
  const MARKER_PREFIX: string := "\U{2039}secret:"
  const MAX_SECRET_NAME_CHARS: nat := 256

  datatype Option<+T> = None | Some(value: T)

  datatype Capped = Whole(message: string) | Cut(head: string, omitted: nat)

  // ----- UTF-8 (RFC 3629, section 3) -----

  function Encode(c: char): (r: seq<nat>)
    ensures |r| == Utf8Size(c)
    ensures !Continuation(r[0]) && forall i :: 0 < i < |r| ==> Continuation(r[i])
  {
    var n := c as int;
    if n < 0x80 then [n]
    else if n < 0x800 then [0xC0 + n / 64, 0x80 + n % 64]
    else if n < 0x10000 then [0xE0 + n / 4096, 0x80 + (n / 64) % 64, 0x80 + n % 64]
    else [0xF0 + n / 262144, 0x80 + (n / 4096) % 64, 0x80 + (n / 64) % 64, 0x80 + n % 64]
  }

  /** `(b & 0xc0) === 0x80`, of a byte. */
  predicate Continuation(b: nat) {
    0x80 <= b < 0xC0
  }

  function Utf8(s: string): (r: seq<nat>)
    ensures |r| == ByteLength(s)
  {
    if s == "" then [] else Encode(s[0]) + Utf8(s[1..])
  }

  /** How many leading characters lie wholly within the first `b` bytes. */
  function Fit(s: string, b: nat): (k: nat)
    ensures k <= |s| && ByteLength(s[..k]) <= b
    ensures k < |s| ==> b < ByteLength(s[..k]) + Utf8Size(s[k])
  {
    if s == "" || Utf8Size(s[0]) > b then 0
    else
      var k := Fit(s[1..], b - Utf8Size(s[0]));
      assert s[..k + 1][1..] == s[1..][..k];
      k + 1
  }

  /** Byte `b` continues a character exactly when the characters before it do not end there; then the byte
      before it belongs to the same character. */
  ghost predicate KindAt(s: string, b: nat)
    requires b < ByteLength(s)
  {
    && (Continuation(Utf8(s)[b]) <==> ByteLength(s[..Fit(s, b)]) != b)
    && (b > 0 && Continuation(Utf8(s)[b]) ==> Fit(s, b - 1) == Fit(s, b))
  }

  lemma KindInFirst(s: string, b: nat)
    requires s != "" && b < Utf8Size(s[0])
    ensures b < ByteLength(s) && KindAt(s, b)
  {
    assert Utf8(s)[b] == Encode(s[0])[b];
    assert s[..0] == "";
  }

  lemma KindLater(s: string, b: nat)
    requires s != "" && b < ByteLength(s[1..]) && KindAt(s[1..], b)
    ensures Utf8Size(s[0]) + b < ByteLength(s) && KindAt(s, Utf8Size(s[0]) + b)
  {
    assert Utf8(s)[Utf8Size(s[0]) + b] == Utf8(s[1..])[b];
    FitNext(s, b);
    if b > 0 {
      FitNext(s, b - 1);
    } else {
      FirstIsHead(s[1..]);
    }
    hide Utf8, Fit, Encode, Utf8Size;
  }

  /** A text's first byte continues nothing. */
  lemma FirstIsHead(s: string)
    requires s != ""
    ensures ByteLength(s) > 0 && !Continuation(Utf8(s)[0])
  {
    assert Utf8(s)[0] == Encode(s[0])[0];
  }

  lemma {:induction false} ByteKind(s: string, b: nat)
    requires b < ByteLength(s)
    ensures Continuation(Utf8(s)[b]) <==> ByteLength(s[..Fit(s, b)]) != b
    ensures b > 0 && Continuation(Utf8(s)[b]) ==> Fit(s, b - 1) == Fit(s, b)
    decreases |s|
  {
    hide Utf8, Fit, Encode, Continuation, Utf8Size;
    assert s != "" && ByteLength(s) == Utf8Size(s[0]) + ByteLength(s[1..]);
    hide ByteLength;
    if b < Utf8Size(s[0]) {
      KindInFirst(s, b);
    } else {
      ByteKind(s[1..], b - Utf8Size(s[0]));
      KindLater(s, b - Utf8Size(s[0]));
    }
  }

  /** The bytes of a prefix of the text are that prefix of the bytes: what `toString` gives back. */
  lemma {:induction false} PrefixBytes(s: string, k: nat)
    requires k <= |s|
    ensures ByteLength(s[..k]) <= ByteLength(s) && Utf8(s)[..ByteLength(s[..k])] == Utf8(s[..k])
    decreases k
  {
    if k > 0 {
      assert s[..k][1..] == s[1..][..k - 1];
      PrefixBytes(s[1..], k - 1);
    } else {
      assert s[..0] == "";
    }
  }

  // ----- markers -----

  function LastIndexOf(s: string, c: char): (r: Option<nat>)
    ensures r.Some? ==> r.value < |s| && s[r.value] == c && c !in s[r.value + 1..]
    ensures r.None? ==> c !in s
  {
    if s == "" then None
    else if s[|s| - 1] == c then Some(|s| - 1)
    else
      var r := LastIndexOf(s[..|s| - 1], c);
      assert s == s[..|s| - 1] + [s[|s| - 1]];
      assert r.Some? ==> s[r.value + 1..] == s[..|s| - 1][r.value + 1..] + [s[|s| - 1]];
      r
  }

  function IndexOf(s: string, c: char): (r: Option<nat>)
    ensures r.Some? ==> r.value < |s| && s[r.value] == c && c !in s[..r.value]
    ensures r.None? ==> c !in s
  {
    if s == "" then None
    else if s[0] == c then Some(0)
    else match IndexOf(s[1..], c) case None => None case Some(i) => Some(i + 1)
  }

  /** The closing glyph, if it lies within the fixed window of UTF-16 units that starts at `m`. */
  function CloseInWindow(msg: string, m: nat): (r: Option<nat>)
    requires m <= |msg|
    ensures r.Some? ==> m <= r.value < |msg| && msg[r.value] == CLOSE
  {
    match IndexOf(msg[m..], CLOSE)
    case None => None
    case Some(i) => if Length(msg[m..m + i]) <= |MARKER_PREFIX| + MAX_SECRET_NAME_CHARS then Some(m + i) else None
  }

  predicate StartsAt(msg: string, i: nat) {
    i + |MARKER_PREFIX| <= |msg| && msg[i..i + |MARKER_PREFIX|] == MARKER_PREFIX
  }

  /** A marker that the cut at `k` opens and does not close. */
  function OpenMarker(msg: string, k: nat): (r: Option<nat>)
    requires k <= |msg|
    ensures r.Some? ==> r.value < k
  {
    match LastIndexOf(msg[..k], OPEN)
    case None => None
    case Some(m) => if StartsAt(msg, m) && CLOSE !in msg[m..k] then Some(m) else None
  }

  /** How many characters of an over-long message are kept. */
  function Kept(msg: string, maxBytes: nat): (k: nat)
    ensures k <= |msg|
  {
    var k := Fit(msg, maxBytes);
    match OpenMarker(msg, k)
    case None => k
    case Some(m) => match CloseInWindow(msg, m) case None => m case Some(j) => j + 1
  }

  function Cap(msg: string, maxBytes: nat): Capped {
    if ByteLength(msg) <= maxBytes then Whole(msg)
    else
      var k := Kept(msg, maxBytes);
      PrefixBytes(msg, k);
      Cut(msg[..k], ByteLength(msg) - ByteLength(msg[..k]))
  }

  /** Backs off while `cut` sits inside a character. */
  method BackOff(message: string, buf: seq<nat>, maxBytes: nat) returns (cut: nat)
    requires buf == Utf8(message) && maxBytes < |buf|
    ensures cut == ByteLength(message[..Fit(message, maxBytes)])
    ensures buf[..cut] == Utf8(message[..Fit(message, maxBytes)])
  {
    cut := maxBytes;
    while cut > 0 && Continuation(buf[cut])
      invariant cut <= maxBytes && Fit(message, cut) == Fit(message, maxBytes)
    {
      ByteKind(message, cut);
      cut := cut - 1;
    }
    ByteKind(message, cut);
    PrefixBytes(message, Fit(message, maxBytes));
    assert cut == 0 ==> ByteLength(message[..Fit(message, 0)]) == 0;
  }

  /** The function as written: back off over continuation bytes, then mend a split marker. */
  method CapErrorEnvelope(message: string, maxBytes: nat) returns (r: Capped)
    ensures r == Cap(message, maxBytes)
    ensures ByteLength(message) <= maxBytes ==> r == Whole(message)
    ensures ByteLength(message) > maxBytes ==> r.Cut? && RightHead(message, maxBytes, r.head)
  {
    CapIs(message, maxBytes);
    hide RightHead, ByteLength, Fit, Utf8, CloseInWindow, StartsAt, LastIndexOf;
    var buf := Utf8(message);
    if |buf| <= maxBytes {
      return Whole(message);
    }
    var cut := BackOff(message, buf, maxBytes);
    ghost var k := Fit(message, maxBytes);
    var head := message[..Fit(message, cut)];
    BackedOffFits(message, maxBytes);
    var glyphStart := LastIndexOf(head, OPEN);
    if glyphStart.Some? && StartsAt(message, glyphStart.value) && CLOSE !in head[glyphStart.value..] {
      var markerStart := glyphStart.value;
      assert head[markerStart..] == message[markerStart..k];
      var closeIdx := CloseInWindow(message, markerStart);
      assert head[..markerStart] == message[..markerStart];
      head := if closeIdx.None? then head[..markerStart] else message[..closeIdx.value + 1];
      cut := ByteLength(head);
    } else if glyphStart.Some? {
      assert head[glyphStart.value..] == message[glyphStart.value..k];
    }
    assert head == message[..|head|];
    PrefixBytes(message, |head|);
    return Cut(head, |buf| - cut);
  }

  lemma {:induction false} BackedOffFits(s: string, b: nat)
    ensures Fit(s, ByteLength(s[..Fit(s, b)])) == Fit(s, b)
    decreases |s|
  {
    if s != "" && Utf8Size(s[0]) <= b {
      var rest := b - Utf8Size(s[0]);
      BackedOffFits(s[1..], rest);
      FitNext(s, rest);
      FitNext(s, ByteLength(s[1..][..Fit(s[1..], rest)]));
    } else {
      assert s[..0] == "";
    }
  }

  lemma FitNext(s: string, rest: nat)
    requires s != ""
    ensures Fit(s, Utf8Size(s[0]) + rest) == Fit(s[1..], rest) + 1
    ensures ByteLength(s[..Fit(s[1..], rest) + 1]) == Utf8Size(s[0]) + ByteLength(s[1..][..Fit(s[1..], rest)])
  {
    var k := Fit(s[1..], rest);
    assert s[..k + 1][1..] == s[1..][..k];
  }

  // ----- what the cut never does -----

  /** A complete marker at `i`, closed at `j`: a name of at most 256 units without either glyph. */
  ghost predicate Marker(msg: string, i: nat, j: nat) {
    && StartsAt(msg, i) && i + |MARKER_PREFIX| <= j < |msg| && msg[j] == CLOSE
    && OPEN !in msg[i + |MARKER_PREFIX|..j] && CLOSE !in msg[i + |MARKER_PREFIX|..j]
    && Length(msg[i + |MARKER_PREFIX|..j]) <= MAX_SECRET_NAME_CHARS
  }

  lemma {:induction false} LengthConcat(a: string, b: string)
    ensures Length(a + b) == Length(a) + Length(b)
    decreases |a|
  {
    if a == "" {
      assert a + b == b;
    } else {
      assert (a + b)[1..] == a[1..] + b;
      LengthConcat(a[1..], b);
    }
  }

  lemma {:induction false} AsciiSizes(s: string)
    requires forall c :: c in s ==> c as int < 0x80
    ensures Length(s) == |s| && ByteLength(s) == |s|
  {
    if s != "" {
      assert s[0] in s && forall c :: c in s[1..] ==> c in s;
      AsciiSizes(s[1..]);
    }
  }

  lemma PrefixUnits()
    ensures |MARKER_PREFIX| == 8 && Length(MARKER_PREFIX) == 8 && OPEN !in MARKER_PREFIX[1..] && CLOSE !in MARKER_PREFIX
    ensures MARKER_PREFIX[0] == OPEN && ByteLength(MARKER_PREFIX) == 10
  {
    assert MARKER_PREFIX[1..] == "secret:";
    AsciiSizes("secret:");
  }

  /** Inside a marker there is no other opening glyph, and no closing one before its end. */
  lemma MarkerInside(msg: string, i: nat, j: nat)
    requires Marker(msg, i, j)
    ensures msg[i] == OPEN && Length(msg[i..j]) <= |MARKER_PREFIX| + MAX_SECRET_NAME_CHARS
    ensures forall k :: i < k <= j ==> msg[k] != OPEN
    ensures forall k :: i <= k < j ==> msg[k] != CLOSE
  {
    PrefixUnits();
    var n := i + |MARKER_PREFIX|;
    var prefix, name := msg[i..n], msg[n..j];
    assert msg[i..j] == prefix + name;
    LengthConcat(prefix, name);
    assert prefix[0] == msg[i];
    assert prefix[1..] == msg[i + 1..n];
    hide Length, StartsAt;
    NoneWithin(msg, i + 1, n, j, OPEN);
    NoneWithin(msg, i, n, j, CLOSE);
  }

  lemma NoneWithin(s: string, i: nat, n: nat, j: nat, c: char)
    requires i <= n <= j <= |s| && c !in s[i..n] && c !in s[n..j]
    ensures forall k :: i <= k < j ==> s[k] != c
  {
    forall k | i <= k < j
      ensures s[k] != c
    {
      assert s[k] == if k < n then s[i..n][k - i] else s[n..j][k - n];
    }
  }

  lemma {:induction false} LastAtLeast(s: string, c: char, i: nat)
    requires i < |s| && s[i] == c
    ensures LastIndexOf(s, c).Some? && i <= LastIndexOf(s, c).value
    decreases |s|
  {
    if s[|s| - 1] != c {
      LastAtLeast(s[..|s| - 1], c, i);
    }
  }

  lemma {:induction false} FirstAtMost(s: string, c: char, i: nat)
    requires i < |s| && s[i] == c
    ensures IndexOf(s, c).Some? && IndexOf(s, c).value <= i
    decreases |s|
  {
    if s[0] != c {
      FirstAtMost(s[1..], c, i - 1);
    }
  }

  lemma Absent(msg: string, a: nat, b: nat, c: char)
    requires a <= b <= |msg| && c !in msg[a..b]
    ensures forall k :: a <= k < b ==> msg[k] != c
  {
    forall k | a <= k < b
      ensures msg[k] != c
    {
      assert msg[k] == msg[a..b][k - a];
    }
  }

  lemma FirstClose(msg: string, m: nat)
    requires m <= |msg|
    ensures CloseInWindow(msg, m).Some? ==> forall k :: m <= k < CloseInWindow(msg, m).value ==> msg[k] != CLOSE
  {
    var i := IndexOf(msg[m..], CLOSE);
    if i.Some? {
      assert msg[m..][..i.value] == msg[m..m + i.value];
      Absent(msg, m, m + i.value, CLOSE);
    }
  }

  lemma LastIs(msg: string, k: nat, i: nat)
    requires i < k <= |msg| && msg[i] == OPEN && forall l :: i < l < k ==> msg[l] != OPEN
    ensures LastIndexOf(msg[..k], OPEN) == Some(i)
  {
    LastAtLeast(msg[..k], OPEN, i);
    hide LastIndexOf;
  }

  lemma FirstIs(msg: string, i: nat, j: nat)
    requires i <= j < |msg| && msg[j] == CLOSE && forall l :: i <= l < j ==> msg[l] != CLOSE
    ensures IndexOf(msg[i..], CLOSE) == Some(j - i)
  {
    assert msg[i..][j - i] == CLOSE;
    FirstAtMost(msg[i..], CLOSE, j - i);
    hide IndexOf;
  }

  /** A marker that the byte cut splits is the one the code finds, and is kept to its end. */
  lemma SplitMarkerKept(msg: string, maxBytes: nat, i: nat, j: nat)
    requires Marker(msg, i, j) && i < Fit(msg, maxBytes) <= j
    ensures Kept(msg, maxBytes) == j + 1
  {
    hide Fit, Length, LastIndexOf, IndexOf, StartsAt;
    var k := Fit(msg, maxBytes);
    MarkerInside(msg, i, j);
    LastIs(msg, k, i);
    FirstIs(msg, i, j);
    assert CLOSE !in msg[i..k];
    assert msg[i..i + (j - i)] == msg[i..j];
  }

  /** Every marker is wholly kept or wholly dropped. */
  lemma MarkersWhole(msg: string, maxBytes: nat, i: nat, j: nat)
    requires Marker(msg, i, j) && ByteLength(msg) > maxBytes
    ensures j < Kept(msg, maxBytes) || Kept(msg, maxBytes) <= i
  {
    var k := Fit(msg, maxBytes);
    MarkerInside(msg, i, j);
    hide Fit, Length, ByteLength, Marker, StartsAt, CloseInWindow;
    if i < k <= j {
      SplitMarkerKept(msg, maxBytes, i, j);
    } else if OpenMarker(msg, k).Some? {
      var m := OpenMarker(msg, k).value;
      Absent(msg, m, k, CLOSE);
      FirstClose(msg, m);
    }
  }

  lemma {:induction false} BytesConcat(a: string, b: string)
    ensures ByteLength(a + b) == ByteLength(a) + ByteLength(b)
    decreases |a|
  {
    if a == "" {
      assert a + b == b;
    } else {
      assert (a + b)[1..] == a[1..] + b;
      BytesConcat(a[1..], b);
    }
  }

  lemma {:induction false} BytesPerUnit(s: string)
    ensures ByteLength(s) <= 3 * Length(s)
  {
    if s != "" {
      BytesPerUnit(s[1..]);
    }
  }

  /** No closing glyph lies in a marker's prefix, so the closing glyph follows it. */
  lemma CloseAfterPrefix(msg: string, m: nat, j: nat)
    requires StartsAt(msg, m) && m <= j < |msg| && msg[j] == CLOSE
    ensures m + |MARKER_PREFIX| <= j
  {
    PrefixUnits();
    Absent(msg, m, m + |MARKER_PREFIX|, CLOSE);
  }

  lemma WindowBytes(msg: string, m: nat, j: nat)
    requires StartsAt(msg, m) && CloseInWindow(msg, m) == Some(j)
    ensures ByteLength(msg[m..j + 1]) <= 781
  {
    hide Length, ByteLength, IndexOf;
    PrefixUnits();
    CloseAfterPrefix(msg, m, j);
    var n := m + |MARKER_PREFIX|;
    assert msg[m..m + (j - m)] == msg[m..j];
    assert msg[m..j] == msg[m..n] + msg[n..j];
    LengthConcat(msg[m..n], msg[n..j]);
    BytesConcat(msg[m..n], msg[n..j]);
    BytesPerUnit(msg[n..j]);
    assert msg[m..j + 1] == msg[m..j] + [CLOSE];
    BytesConcat(msg[m..j], [CLOSE]);
    OneByteLength(CLOSE);
  }

  /** The opening glyph of an open marker lies within the bound, all three bytes of it. */
  lemma OpenGlyphFits(msg: string, maxBytes: nat, m: nat)
    requires OpenMarker(msg, Fit(msg, maxBytes)) == Some(m)
    ensures ByteLength(msg[..m]) + 3 <= maxBytes
  {
    var k := Fit(msg, maxBytes);
    assert msg[..k] == (msg[..m] + [OPEN]) + msg[m + 1..k] by {
      assert msg[..k][m] == OPEN;
    }
    BytesConcat(msg[..m] + [OPEN], msg[m + 1..k]);
    BytesConcat(msg[..m], [OPEN]);
    assert ByteLength([OPEN]) == 3;
  }

  lemma KeptBytes(msg: string, maxBytes: nat)
    ensures ByteLength(msg[..Kept(msg, maxBytes)]) <= maxBytes + 778
  {
    hide Fit, ByteLength, StartsAt, CloseInWindow, LastIndexOf;
    var open := OpenMarker(msg, Fit(msg, maxBytes));
    if open.Some? {
      OpenGlyphFits(msg, maxBytes, open.value);
      var close := CloseInWindow(msg, open.value);
      if close.Some? {
        WindowBytes(msg, open.value, close.value);
        assert msg[..close.value + 1] == msg[..open.value] + msg[open.value..close.value + 1];
        BytesConcat(msg[..open.value], msg[open.value..close.value + 1]);
      }
    }
  }

  /** The kept head and the omitted count add up to the original bytes; the head ends between characters; and
      it outgrows the bound by at most what is left of one marker window, 778 bytes. */
  lemma CutBound(msg: string, maxBytes: nat)
    requires ByteLength(msg) > maxBytes
    ensures Cap(msg, maxBytes).Cut?
    ensures Cap(msg, maxBytes).head <= msg && Utf8(Cap(msg, maxBytes).head) <= Utf8(msg)
    ensures ByteLength(Cap(msg, maxBytes).head) + Cap(msg, maxBytes).omitted == ByteLength(msg)
    ensures ByteLength(Cap(msg, maxBytes).head) <= maxBytes + 778
  {
    hide Kept, Utf8, ByteLength;
    PrefixBytes(msg, Kept(msg, maxBytes));
    KeptBytes(msg, maxBytes);
  }

  /** The bound is passed exactly when a marker that straddles the cut is completed. */
  lemma CutWithin(msg: string, maxBytes: nat)
    requires ByteLength(msg) > maxBytes
    ensures ByteLength(Cap(msg, maxBytes).head) > maxBytes <==> Kept(msg, maxBytes) > Fit(msg, maxBytes)
    ensures Kept(msg, maxBytes) > Fit(msg, maxBytes) ==>
      exists i, j :: OpenMarker(msg, Fit(msg, maxBytes)) == Some(i) && CloseInWindow(msg, i) == Some(j)
        && Kept(msg, maxBytes) == j + 1
  {
    hide Utf8, ByteLength, LastIndexOf, CloseInWindow, StartsAt;
    var k, kept := Fit(msg, maxBytes), Kept(msg, maxBytes);
    if k < kept {
      PrefixBytes(msg[..kept], k + 1);
      assert msg[..kept][..k + 1] == msg[..k] + [msg[k]];
      BytesConcat(msg[..k], [msg[k]]);
      OneByteLength(msg[k]);
    } else {
      assert msg[..k][..kept] == msg[..kept];
      PrefixBytes(msg[..k], kept);
    }
  }

  // ----- what exactly is kept -----

  /** The first `k` characters are the longest prefix that fits. */
  ghost predicate Longest(msg: string, maxBytes: nat, k: nat) {
    k < |msg| && ByteLength(msg[..k]) <= maxBytes < ByteLength(msg[..k + 1])
  }

  /** The last opening glyph before `k` is at `m`, starts a marker, and is not closed before `k`. */
  ghost predicate LeftOpen(msg: string, k: nat, m: nat) {
    && m < k <= |msg| && m + 8 <= |msg| && msg[m..m + 8] == "\U{2039}secret:"
    && (forall i :: m < i < k ==> msg[i] != '\U{2039}') && (forall i :: m <= i < k ==> msg[i] != '\U{203A}')
  }

  /** The first closing glyph from `m` on is at `j`, at most 264 UTF-16 units later. */
  ghost predicate ClosedAt(msg: string, m: nat, j: nat) {
    && m <= j < |msg| && msg[j] == '\U{203A}' && (forall i :: m <= i < j ==> msg[i] != '\U{203A}')
    && Length(msg[m..j]) <= 264
  }

  /** The head of an over-long message is the longest prefix that fits; but when that leaves a marker open, it goes
      on to the marker's closing glyph, or ends where the marker starts if there is none within reach. */
  ghost predicate RightHead(msg: string, maxBytes: nat, head: string) {
    forall k: nat :: Longest(msg, maxBytes, k) ==>
      && ((forall m: nat :: !LeftOpen(msg, k, m)) ==> head == msg[..k])
      && (forall m: nat, j: nat :: LeftOpen(msg, k, m) && ClosedAt(msg, m, j) ==> head == msg[..j + 1])
      && (forall m: nat :: LeftOpen(msg, k, m) && (forall j: nat :: !ClosedAt(msg, m, j)) ==> head == msg[..m])
  }

  lemma LongestIsFit(msg: string, maxBytes: nat, k: nat)
    requires ByteLength(msg) > maxBytes
    ensures Longest(msg, maxBytes, k) <==> k == Fit(msg, maxBytes)
  {
    var f := Fit(msg, maxBytes);
    assert msg[..|msg|] == msg;
    hide Fit;
    if f < |msg| {
      NextBytes(msg, f);
    }
    if k < f {
      assert msg[..f][..k + 1] == msg[..k + 1];
      PrefixBytes(msg[..f], k + 1);
    } else if f < k < |msg| {
      assert msg[..k][..f + 1] == msg[..f + 1];
      PrefixBytes(msg[..k], f + 1);
    }
  }

  lemma NextBytes(msg: string, k: nat)
    requires k < |msg|
    ensures ByteLength(msg[..k + 1]) == ByteLength(msg[..k]) + Utf8Size(msg[k])
  {
    assert msg[..k + 1] == msg[..k] + [msg[k]];
    BytesConcat(msg[..k], [msg[k]]);
    OneByteLength(msg[k]);
  }

  lemma StartsIff(msg: string, m: nat)
    ensures StartsAt(msg, m) <==> m + 8 <= |msg| && msg[m..m + 8] == "\U{2039}secret:"
    ensures StartsAt(msg, m) ==> msg[m] == OPEN
  {
    PrefixUnits();
    if StartsAt(msg, m) {
      assert msg[m..m + 8][0] == OPEN;
    }
  }

  lemma OpenIff(msg: string, k: nat, m: nat)
    requires k <= |msg|
    ensures OpenMarker(msg, k) == Some(m) <==> LeftOpen(msg, k, m)
  {
    hide StartsAt, LastIndexOf;
    StartsIff(msg, m);
    if LeftOpen(msg, k, m) {
      LastIs(msg, k, m);
      assert CLOSE !in msg[m..k];
    }
    if OpenMarker(msg, k) == Some(m) {
      Absent(msg, m, k, CLOSE);
      assert msg[..k][m + 1..] == msg[m + 1..k];
      Absent(msg, m + 1, k, OPEN);
    }
  }

  lemma WindowIff(msg: string, m: nat, j: nat)
    requires m <= |msg|
    ensures CloseInWindow(msg, m) == Some(j) <==> ClosedAt(msg, m, j)
  {
    hide IndexOf, Length;
    PrefixUnits();
    FirstClose(msg, m);
    if ClosedAt(msg, m, j) {
      FirstIs(msg, m, j);
      assert msg[m..m + (j - m)] == msg[m..j];
    }
    var i := IndexOf(msg[m..], CLOSE);
    if i.Some? {
      assert msg[m..][i.value] == CLOSE;
    }
  }

  lemma NotOpen(msg: string, k: nat)
    requires k <= |msg|
    ensures OpenMarker(msg, k) == None <==> forall m: nat :: !LeftOpen(msg, k, m)
  {
    forall m: nat
      ensures OpenMarker(msg, k) == Some(m) <==> LeftOpen(msg, k, m)
    {
      OpenIff(msg, k, m);
    }
    hide OpenMarker, LeftOpen;
  }

  lemma NotClosed(msg: string, m: nat)
    requires m <= |msg|
    ensures CloseInWindow(msg, m) == None <==> forall j: nat :: !ClosedAt(msg, m, j)
  {
    forall j: nat
      ensures CloseInWindow(msg, m) == Some(j) <==> ClosedAt(msg, m, j)
    {
      WindowIff(msg, m, j);
    }
    hide CloseInWindow, ClosedAt;
  }

  lemma KeptIs(msg: string, maxBytes: nat, m: nat, j: nat)
    ensures (forall m: nat :: !LeftOpen(msg, Fit(msg, maxBytes), m)) ==> Kept(msg, maxBytes) == Fit(msg, maxBytes)
    ensures LeftOpen(msg, Fit(msg, maxBytes), m) && ClosedAt(msg, m, j) ==> Kept(msg, maxBytes) == j + 1
    ensures LeftOpen(msg, Fit(msg, maxBytes), m) && (forall j: nat :: !ClosedAt(msg, m, j)) ==> Kept(msg, maxBytes) == m
  {
    hide LeftOpen, ClosedAt, OpenMarker, CloseInWindow, Fit;
    NotOpen(msg, Fit(msg, maxBytes));
    OpenIff(msg, Fit(msg, maxBytes), m);
    if m <= |msg| {
      WindowIff(msg, m, j);
      NotClosed(msg, m);
    }
  }

  /** The cut, said on bytes and characters: a message that fits is left alone, and an over-long one keeps the right
      head and says how many bytes it lost. */
  lemma CapIs(msg: string, maxBytes: nat)
    ensures ByteLength(msg) <= maxBytes ==> Cap(msg, maxBytes) == Whole(msg)
    ensures ByteLength(msg) > maxBytes ==>
      && Cap(msg, maxBytes).Cut? && RightHead(msg, maxBytes, Cap(msg, maxBytes).head)
      && Cap(msg, maxBytes).omitted == ByteLength(msg) - ByteLength(Cap(msg, maxBytes).head)
  {
    hide Fit, ByteLength, LeftOpen, ClosedAt, Longest, Kept;
    if ByteLength(msg) > maxBytes {
      var head, f := Cap(msg, maxBytes).head, Fit(msg, maxBytes);
      forall k: nat
        ensures Longest(msg, maxBytes, k) <==> k == f
      {
        LongestIsFit(msg, maxBytes, k);
      }
      KeptIs(msg, maxBytes, 0, 0);
      forall m: nat, j: nat
        ensures LeftOpen(msg, f, m) && ClosedAt(msg, m, j) ==> Kept(msg, maxBytes) == j + 1
      {
        KeptIs(msg, maxBytes, m, j);
      }
      forall m: nat
        ensures LeftOpen(msg, f, m) && (forall j: nat :: !ClosedAt(msg, m, j)) ==> Kept(msg, maxBytes) == m
      {
        KeptIs(msg, maxBytes, m, 0);
      }
    }
  }

  /** There is exactly one longest prefix that fits, so the head is settled. */
  lemma OneLongest(msg: string, maxBytes: nat)
    requires ByteLength(msg) > maxBytes
    ensures exists k: nat :: Longest(msg, maxBytes, k) && forall l: nat :: Longest(msg, maxBytes, l) ==> l == k
  {
    LongestIsFit(msg, maxBytes, Fit(msg, maxBytes));
    hide Longest, ByteLength, Fit;
    forall l: nat
      ensures Longest(msg, maxBytes, l) ==> l == Fit(msg, maxBytes)
    {
      LongestIsFit(msg, maxBytes, l);
    }
  }

  lemma OneByteLength(c: char)
    ensures ByteLength([c]) == Utf8Size(c)
  {
    assert [c][1..] == "";
  }
}

/** What JavaScript's string operations do to the texts the engine handles. */
module JsText {

  /** Whitespace, as `trim` and `\s` both understand it. */
  predicate Space(c: char) {
    c in " \t\n\r" || c as int in {11, 12, 0xA0, 0x1680, 0x2028, 0x2029, 0x202F, 0x205F, 0x3000, 0xFEFF}
      || 0x2000 <= c as int <= 0x200A
  }

  function DropSpaces(s: string): string {
    if s != "" && Space(s[0]) then DropSpaces(s[1..]) else s
  }

  function DropSpacesEnd(s: string): string {
    if s != "" && Space(s[|s| - 1]) then DropSpacesEnd(s[..|s| - 1]) else s
  }

  function Trim(s: string): string {
    DropSpacesEnd(DropSpaces(s))
  }

  lemma {:induction false} DroppedLength(s: string)
    ensures |DropSpaces(s)| <= |s| && (DropSpaces(s) != s ==> |DropSpaces(s)| < |s|)
    ensures DropSpaces(s) == s <==> s == "" || !Space(s[0])
  {
    if s != "" && Space(s[0]) {
      DroppedLength(s[1..]);
    }
  }

  lemma {:induction false} DroppedEndLength(s: string)
    ensures |DropSpacesEnd(s)| <= |s|
    ensures DropSpacesEnd(s) == s <==> s == "" || !Space(s[|s| - 1])
  {
    if s != "" && Space(s[|s| - 1]) {
      DroppedEndLength(s[..|s| - 1]);
    }
  }

  /** A text is trimmed already exactly when it neither starts nor ends with whitespace. */
  lemma TrimmedIff(s: string)
    ensures Trim(s) == s <==> s == "" || (!Space(s[0]) && !Space(s[|s| - 1]))
  {
    DroppedLength(s);
    DroppedEndLength(DropSpaces(s));
    hide Space, DropSpaces, DropSpacesEnd;
  }

  // ----- splitting on slashes -----

  /** `s.split('/')`. */
  function Split(s: string): (r: seq<string>)
    ensures |r| > 0
  {
    if s == "" then [""]
    else
      var rest := Split(s[1..]);
      if s[0] == '/' then [""] + rest else [[s[0]] + rest[0]] + rest[1..]
  }

  lemma {:induction false} SplitConcat(a: string, b: string)
    ensures Split(a + "/" + b) == Split(a) + Split(b)
  {
    var s := a + "/" + b;
    if a == "" {
      assert s[1..] == b;
    } else {
      assert s[0] == a[0] && s[1..] == a[1..] + "/" + b;
      SplitConcat(a[1..], b);
    }
  }

  predicate NoSlash(s: string) {
    '/' !in s
  }

  lemma {:induction false} SplitOne(s: string)
    requires NoSlash(s)
    ensures Split(s) == [s]
  {
    if s != "" {
      SplitOne(s[1..]);
      assert s == [s[0]] + s[1..];
    }
  }

  lemma {:induction false} SplitParts(s: string)
    ensures forall x :: x in Split(s) ==> NoSlash(x)
  {
    if s != "" {
      SplitParts(s[1..]);
      var rest := Split(s[1..]);
      assert rest[0] in rest;
      forall x | x in Split(s)
        ensures NoSlash(x)
      {
        if x !in rest && x != "" {
          assert x == [s[0]] + rest[0];
        }
      }
    }
  }

  // ----- sizes -----

  /** UTF-16 code units of one character. */
  function Units(c: char): nat {
    if c as int < 0x10000 then 1 else 2
  }

  /** UTF-8 bytes of one character (RFC 3629, section 3). */
  function Utf8Size(c: char): nat {
    if c as int < 0x80 then 1 else if c as int < 0x800 then 2 else if c as int < 0x10000 then 3 else 4
  }

  /** `s.length`. */
  function Length(s: string): nat {
    if s == "" then 0 else Units(s[0]) + Length(s[1..])
  }

  /** `Buffer.byteLength(s, 'utf8')`. */
  function ByteLength(s: string): nat {
    if s == "" then 0 else Utf8Size(s[0]) + ByteLength(s[1..])
  }
}

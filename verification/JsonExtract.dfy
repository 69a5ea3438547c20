/** `parseJsonContent`: recovering the JSON object or array that a model wrapped in prose or a code fence.
    `JSON.parse` itself is a parameter. */
module JsonExtract {
  import opened JsText

  datatype Option<+T> = None | Some(value: T)

  // ----- JSON texts (RFC 8259, sections 2 and 7) -----

  /** One character of a string as written: plain, a two-character escape, or `\uXXXX`. */
  datatype Item = Plain(c: char) | Escape(c: char) | Unicode(h1: char, h2: char, h3: char, h4: char)

  /** A value as written, insignificant whitespace included. Numbers and the three literals are scalars. */
  datatype Value =
    | Scalar(text: string)
    | Str(items: seq<Item>)
    | Arr(blank: string, elems: Elems)
    | Obj(blank: string, members: Members)

  datatype Elems = NoElems | Elem(before: string, v: Value, after: string, rest: Elems)

  datatype Members = NoMembers | Member(before: string, key: seq<Item>, colon: (string, string), v: Value,
        after: string, rest: Members)

  predicate Hex(c: char) {
    '0' <= c <= '9' || 'a' <= c <= 'f' || 'A' <= c <= 'F'
  }

  predicate ItemOk(i: Item) {
    match i
    case Plain(c) => c != '"' && c != '\\' && c >= ' '
    case Escape(c) => c in "\"\\/bfnrt"
    case Unicode(h1, h2, h3, h4) => Hex(h1) && Hex(h2) && Hex(h3) && Hex(h4)
  }

  predicate ItemsOk(items: seq<Item>) {
    forall i :: 0 <= i < |items| ==> ItemOk(items[i])
  }

  predicate BlankOk(s: string) {
    forall i :: 0 <= i < |s| ==> s[i] in " \t\n\r"
  }

  predicate ScalarOk(s: string) {
    forall i :: 0 <= i < |s| ==> '0' <= s[i] <= '9' || 'a' <= s[i] <= 'z' || s[i] in "E+-."
  }

  predicate ValueOk(v: Value) {
    match v
    case Scalar(text) => text != "" && ScalarOk(text)
    case Str(items) => ItemsOk(items)
    case Arr(blank, elems) => BlankOk(blank) && ElemsOk(elems)
    case Obj(blank, members) => BlankOk(blank) && MembersOk(members)
  }

  predicate ElemsOk(e: Elems) {
    e.Elem? ==> BlankOk(e.before) && ValueOk(e.v) && BlankOk(e.after) && ElemsOk(e.rest)
  }

  predicate MembersOk(m: Members) {
    m.Member? ==>
      && BlankOk(m.before) && ItemsOk(m.key) && BlankOk(m.colon.0) && BlankOk(m.colon.1)
      && ValueOk(m.v) && BlankOk(m.after) && MembersOk(m.rest)
  }

  function PrintItem(i: Item): string {
    match i
    case Plain(c) => [c]
    case Escape(c) => ['\\', c]
    case Unicode(h1, h2, h3, h4) => ['\\', 'u', h1, h2, h3, h4]
  }

  function PrintItems(items: seq<Item>): string {
    if items == [] then "" else PrintItem(items[0]) + PrintItems(items[1..])
  }

  function PrintStr(items: seq<Item>): string {
    "\"" + (PrintItems(items) + "\"")
  }

  function Print(v: Value): string {
    match v
    case Scalar(text) => text
    case Str(items) => PrintStr(items)
    case Arr(blank, elems) => "[" + ((blank + PrintElems(elems)) + "]")
    case Obj(blank, members) => "{" + ((blank + PrintMembers(members)) + "}")
  }

  function PrintElems(e: Elems): string {
    if e.NoElems? then ""
    else e.before + (Print(e.v) + (e.after + (if e.rest.NoElems? then "" else "," + PrintElems(e.rest))))
  }

  function PrintMembers(m: Members): string {
    if m.NoMembers? then ""
    else
      m.before + (PrintStr(m.key) + (m.colon.0 + (":" + (m.colon.1 + (Print(m.v) + (m.after +
      (if m.rest.NoMembers? then "" else "," + PrintMembers(m.rest))))))))
  }

  // ----- the scanner -----

  datatype Scan = Scan(depth: int, inStr: bool, esc: bool)

  datatype Move = Stop | Go(next: Scan)

  predicate Bracket(c: char) {
    c == '{' || c == '['
  }

  function CloserOf(open: char): char {
    if open == '{' then '}' else ']'
  }

  /** One turn of the loop; it stops at the closer that brings the depth back to zero. */
  function Turn(open: char, s: Scan, c: char): Move {
    if s.inStr then
      Go(if s.esc then s.(esc := false)
         else if c == '\\' then s.(esc := true)
         else if c == '"' then s.(inStr := false)
         else s)
    else if c == '"' then Go(s.(inStr := true))
    else if c == open then Go(s.(depth := s.depth + 1))
    else if c == CloserOf(open) then if s.depth - 1 == 0 then Stop else Go(s.(depth := s.depth - 1))
    else Go(s)
  }

  /** Where the scanner stops in `t`. */
  function FindClose(open: char, s: Scan, t: string): (r: Option<nat>)
    ensures r.Some? ==> r.value < |t|
    decreases |t|
  {
    if t == "" then None
    else
      match Turn(open, s, t[0])
      case Stop => Some(0)
      case Go(n) => match FindClose(open, n, t[1..]) case None => None case Some(i) => Some(i + 1)
  }

  /** The state after `t`, if the scanner does not stop inside it. */
  function After(open: char, s: Scan, t: string): Option<Scan>
    decreases |t|
  {
    if t == "" then Some(s)
    else
      match Turn(open, s, t[0])
      case Stop => None
      case Go(n) => After(open, n, t[1..])
  }

  lemma {:induction false} AfterConcat(open: char, s: Scan, a: string, b: string)
    requires After(open, s, a).Some?
    ensures After(open, s, a + b) == After(open, After(open, s, a).value, b)
    decreases |a|
  {
    if a == "" {
      assert a + b == b;
    } else {
      assert (a + b)[1..] == a[1..] + b;
      AfterConcat(open, Turn(open, s, a[0]).next, a[1..], b);
    }
  }

  lemma {:induction false} FindCloseAfter(open: char, s: Scan, a: string, b: string)
    requires After(open, s, a).Some?
    ensures FindClose(open, s, a + b) ==
            match FindClose(open, After(open, s, a).value, b) case None => None case Some(i) => Some(|a| + i)
    decreases |a|
  {
    if a == "" {
      assert a + b == b;
    } else {
      assert (a + b)[1..] == a[1..] + b;
      FindCloseAfter(open, Turn(open, s, a[0]).next, a[1..], b);
    }
  }

  /** Scanning `t` outside a string, at a depth of at least one, changes nothing. */
  ghost predicate Neutral(open: char, t: string) {
    forall d {:trigger Scan(d, false, false)} :: d >= 1 ==>
      After(open, Scan(d, false, false), t) == Some(Scan(d, false, false))
  }

  lemma NeutralConcat(open: char, a: string, b: string)
    requires Neutral(open, a) && Neutral(open, b)
    ensures Neutral(open, a + b)
  {
    hide After;
    forall d | d >= 1
      ensures After(open, Scan(d, false, false), a + b) == Some(Scan(d, false, false))
    {
      AfterConcat(open, Scan(d, false, false), a, b);
    }
  }

  /** Neither a quote nor a bracket of either kind. */
  predicate Quiet(t: string) {
    forall i :: 0 <= i < |t| ==> t[i] !in "\"{}[]"
  }

  lemma {:induction false} QuietNeutral(open: char, t: string)
    requires Bracket(open) && Quiet(t)
    ensures Neutral(open, t)
  {
    if t != "" {
      QuietNeutral(open, t[1..]);
      assert t[0] !in "\"{}[]";
    }
  }

  lemma {:induction false} ItemsStayInside(open: char, d: int, items: seq<Item>)
    requires ItemsOk(items)
    ensures After(open, Scan(d, true, false), PrintItems(items)) == Some(Scan(d, true, false))
  {
    if items != [] {
      var s := Scan(d, true, false);
      var t := PrintItem(items[0]);
      assert ItemOk(items[0]);
      assert After(open, s, t) == Some(s) by {
        match items[0]
        case Plain(c) =>
        case Escape(c) =>
          assert t[1..] == [c];
          assert After(open, Scan(d, true, true), [c]) == Some(s);
        case Unicode(h1, h2, h3, h4) => HexStayInside(open, d, h1, h2, h3, h4);
      }
      AfterConcat(open, s, t, PrintItems(items[1..]));
      ItemsStayInside(open, d, items[1..]);
    }
  }

  lemma HexStayInside(open: char, d: int, h1: char, h2: char, h3: char, h4: char)
    requires Hex(h1) && Hex(h2) && Hex(h3) && Hex(h4)
    ensures After(open, Scan(d, true, false), ['\\', 'u', h1, h2, h3, h4]) == Some(Scan(d, true, false))
  {
    var s, t := Scan(d, true, false), ['\\', 'u', h1, h2, h3, h4];
    assert t[1..] == ['u', h1, h2, h3, h4];
    assert t[1..][1..] == [h1, h2, h3, h4];
    assert [h1, h2, h3, h4][1..] == [h2, h3, h4] && [h2, h3, h4][1..] == [h3, h4] && [h3, h4][1..] == [h4];
    assert After(open, s, [h4]) == Some(s);
    assert After(open, s, [h3, h4]) == Some(s);
    assert After(open, s, [h2, h3, h4]) == Some(s);
    assert After(open, s, [h1, h2, h3, h4]) == Some(s);
  }

  lemma StrNeutral(open: char, items: seq<Item>)
    requires Bracket(open) && ItemsOk(items)
    ensures Neutral(open, PrintStr(items))
  {
    forall d | d >= 1
      ensures After(open, Scan(d, false, false), PrintStr(items)) == Some(Scan(d, false, false))
    {
      var body := PrintItems(items);
      ItemsStayInside(open, d, items);
      AfterConcat(open, Scan(d, true, false), body, "\"");
      assert PrintStr(items)[1..] == body + "\"";
      assert After(open, Scan(d, true, false), "\"") == Some(Scan(d, false, false));
    }
  }

  /** Whole values of any kind, whatever brackets and quotes they hold. */
  lemma {:induction false} ValueNeutral(open: char, v: Value)
    requires Bracket(open) && ValueOk(v)
    ensures Neutral(open, Print(v))
    decreases v
  {
    match v
    case Scalar(text) =>
      assert Quiet(text);
      QuietNeutral(open, text);
    case Str(items) => StrNeutral(open, items);
    case Arr(blank, elems) =>
      BlankNeutral(open, blank);
      ElemsNeutral(open, elems);
      NeutralConcat(open, blank, PrintElems(elems));
      Enclosed(open, '[', blank + PrintElems(elems));
    case Obj(blank, members) =>
      BlankNeutral(open, blank);
      MembersNeutral(open, members);
      NeutralConcat(open, blank, PrintMembers(members));
      Enclosed(open, '{', blank + PrintMembers(members));
  }

  lemma BlankNeutral(open: char, t: string)
    requires Bracket(open) && BlankOk(t)
    ensures Neutral(open, t)
  {
    assert Quiet(t);
    QuietNeutral(open, t);
  }

  lemma FirstTurn(open: char, s: Scan, c: char, t: string)
    requires Turn(open, s, c).Go?
    ensures After(open, s, [c] + t) == After(open, Turn(open, s, c).next, t)
  {
    assert ([c] + t)[1..] == t;
  }

  lemma OnlyTurn(open: char, s: Scan, c: char)
    requires Turn(open, s, c).Go?
    ensures After(open, s, [c]) == Some(Turn(open, s, c).next)
  {
    assert [c] + "" == [c];
    FirstTurn(open, s, c, "");
  }

  /** The depth inside a bracket: one more only for the kind that is counted. */
  function Inside(open: char, b: char, d: int): int {
    if b == open then d + 1 else d
  }

  lemma BracketTurns(open: char, b: char, d: int)
    requires Bracket(open) && Bracket(b) && d >= 1
    ensures Turn(open, Scan(d, false, false), b) == Go(Scan(Inside(open, b, d), false, false))
    ensures Turn(open, Scan(Inside(open, b, d), false, false), CloserOf(b)) == Go(Scan(d, false, false))
  {
  }

  lemma NeutralAt(open: char, t: string, d: int)
    requires Neutral(open, t) && d >= 1
    ensures After(open, Scan(d, false, false), t) == Some(Scan(d, false, false))
  {
    hide After;
  }

  lemma EnclosedAt(open: char, b: char, t: string, d: int)
    requires Bracket(open) && Bracket(b) && Neutral(open, t) && d >= 1
    ensures After(open, Scan(d, false, false), [b] + (t + [CloserOf(b)])) == Some(Scan(d, false, false))
  {
    hide After, Neutral, Turn;
    var inner := Scan(Inside(open, b, d), false, false);
    BracketTurns(open, b, d);
    FirstTurn(open, Scan(d, false, false), b, t + [CloserOf(b)]);
    NeutralAt(open, t, Inside(open, b, d));
    AfterConcat(open, inner, t, [CloserOf(b)]);
    OnlyTurn(open, inner, CloserOf(b));
  }

  /** A balanced inside stays balanced between brackets of either kind. */
  lemma Enclosed(open: char, b: char, t: string)
    requires Bracket(open) && Bracket(b) && Neutral(open, t)
    ensures Neutral(open, [b] + (t + [CloserOf(b)]))
  {
    hide After;
    forall d | d >= 1
      ensures After(open, Scan(d, false, false), [b] + (t + [CloserOf(b)])) == Some(Scan(d, false, false))
    {
      EnclosedAt(open, b, t, d);
    }
  }

  lemma {:induction false} ElemsNeutral(open: char, e: Elems)
    requires Bracket(open) && ElemsOk(e)
    ensures Neutral(open, PrintElems(e))
    decreases e
  {
    if e.Elem? {
      BlankNeutral(open, e.before);
      ValueNeutral(open, e.v);
      BlankNeutral(open, e.after);
      ElemsNeutral(open, e.rest);
      TailNeutral(open, PrintElems(e.rest));
      var tail := if e.rest.NoElems? then "" else "," + PrintElems(e.rest);
      NeutralConcat(open, e.after, tail);
      NeutralConcat(open, Print(e.v), e.after + tail);
      NeutralConcat(open, e.before, Print(e.v) + (e.after + tail));
    }
  }

  lemma TailNeutral(open: char, t: string)
    requires Bracket(open) && Neutral(open, t)
    ensures Neutral(open, "") && Neutral(open, "," + t)
  {
    assert Quiet(",");
    QuietNeutral(open, ",");
    NeutralConcat(open, ",", t);
  }

  lemma {:induction false} MembersNeutral(open: char, m: Members)
    requires Bracket(open) && MembersOk(m)
    ensures Neutral(open, PrintMembers(m))
    decreases m
  {
    hide Neutral;
    if m.Member? {
      BlankNeutral(open, m.before);
      StrNeutral(open, m.key);
      BlankNeutral(open, m.colon.0);
      QuietNeutral(open, ":");
      BlankNeutral(open, m.colon.1);
      ValueNeutral(open, m.v);
      BlankNeutral(open, m.after);
      MembersNeutral(open, m.rest);
      TailNeutral(open, PrintMembers(m.rest));
      var t0 := m.after + (if m.rest.NoMembers? then "" else "," + PrintMembers(m.rest));
      var t1 := m.colon.1 + (Print(m.v) + t0);
      NeutralConcat(open, m.after, if m.rest.NoMembers? then "" else "," + PrintMembers(m.rest));
      NeutralConcat(open, Print(m.v), t0);
      NeutralConcat(open, m.colon.1, Print(m.v) + t0);
      NeutralConcat(open, ":", t1);
      NeutralConcat(open, m.colon.0, ":" + t1);
      NeutralConcat(open, PrintStr(m.key), m.colon.0 + (":" + t1));
      NeutralConcat(open, m.before, PrintStr(m.key) + (m.colon.0 + (":" + t1)));
    } else {
      EmptyNeutral(open);
    }
  }

  lemma EmptyNeutral(open: char)
    ensures Neutral(open, "")
  {
  }

  lemma ScanBalanced(open: char, inner: string, suffix: string)
    requires Bracket(open) && Neutral(open, inner)
    ensures FindClose(open, Scan(0, false, false), [open] + (inner + [CloserOf(open)]) + suffix) == Some(|inner| + 1)
  {
    hide After, Neutral;
    var rest := [CloserOf(open)] + suffix;
    var text := [open] + (inner + [CloserOf(open)]) + suffix;
    assert text == [open] + (inner + rest);
    assert text[1..] == inner + rest;
    NeutralAt(open, inner, 1);
    FindCloseAfter(open, Scan(1, false, false), inner, rest);
    assert FindClose(open, Scan(1, false, false), rest) == Some(0);
  }

  /** From its own opening bracket, the scanner stops exactly at the last character of a printed object or
      array, whatever follows. */
  lemma ScanSelects(v: Value, suffix: string)
    requires ValueOk(v) && (v.Arr? || v.Obj?)
    ensures Print(v) != "" && Bracket(Print(v)[0]) && Print(v)[|Print(v)| - 1] == CloserOf(Print(v)[0])
    ensures FindClose(Print(v)[0], Scan(0, false, false), Print(v) + suffix) == Some(|Print(v)| - 1)
  {
    hide Neutral, FindClose;
    var open := if v.Arr? then '[' else '{';
    BlankNeutral(open, v.blank);
    if v.Arr? {
      ElemsNeutral(open, v.elems);
      NeutralConcat(open, v.blank, PrintElems(v.elems));
      ScanBalanced(open, v.blank + PrintElems(v.elems), suffix);
    } else {
      MembersNeutral(open, v.members);
      NeutralConcat(open, v.blank, PrintMembers(v.members));
      ScanBalanced(open, v.blank + PrintMembers(v.members), suffix);
    }
  }

  // ----- trimming and code fences -----

  predicate Letter(c: char) {
    'a' <= c <= 'z' || 'A' <= c <= 'Z'
  }

  function DropLetters(s: string): string {
    if s != "" && Letter(s[0]) then DropLetters(s[1..]) else s
  }

  const FENCE := "```"

  /** The body of a fenced block; letters and whitespace never eat into a closing fence, so the expression
      matches exactly when the text opens and closes with one. */
  function Unfence(s: string): Option<string> {
    if |s| >= 6 && s[..3] == FENCE && s[|s| - 3..] == FENCE then Some(DropSpaces(DropLetters(s[3..|s| - 3]))) else None
  }

  function Normalize(content: string): string {
    var s := Trim(content);
    match Unfence(s) case Some(body) => Trim(body) case None => s
  }

  predicate NoBracket(t: string) {
    forall i :: 0 <= i < |t| ==> !Bracket(t[i])
  }

  /** `core` survives, whole, between a bracket-free text and some other text. */
  ghost predicate Keeps(s: string, core: string) {
    exists p, q :: NoBracket(p) && s == p + core + q
  }

  /** A text that no trimming or fence stripping can reach into: it begins and ends with a bracket. */
  ghost predicate Solid(core: string) {
    core != "" && Bracket(core[0]) && core[|core| - 1] in "}]"
  }

  lemma {:induction false} DropSpacesKeeps(p: string, core: string, q: string)
    requires Solid(core) && NoBracket(p)
    ensures Keeps(DropSpaces(p + core + q), core)
    decreases |p|
  {
    var s := p + core + q;
    if p != "" && Space(p[0]) {
      assert s[1..] == p[1..] + core + q;
      DropSpacesKeeps(p[1..], core, q);
    } else {
      assert !Space(s[0]) by {
        if p == "" { assert s[0] == core[0]; }
      }
      assert NoBracket(p);
    }
  }

  lemma {:induction false} DropLettersKeeps(p: string, core: string, q: string)
    requires Solid(core) && NoBracket(p)
    ensures Keeps(DropLetters(p + core + q), core)
    decreases |p|
  {
    var s := p + core + q;
    if p != "" && Letter(p[0]) {
      assert s[1..] == p[1..] + core + q;
      DropLettersKeeps(p[1..], core, q);
    } else {
      assert !Letter(s[0]) by {
        if p == "" { assert s[0] == core[0]; }
      }
      assert NoBracket(p);
    }
  }

  lemma {:induction false} DropSpacesEndKeeps(p: string, core: string, q: string)
    requires Solid(core) && NoBracket(p)
    ensures Keeps(DropSpacesEnd(p + core + q), core)
    decreases |q|
  {
    var s := p + core + q;
    if q != "" && Space(q[|q| - 1]) {
      assert s[..|s| - 1] == p + core + q[..|q| - 1];
      DropSpacesEndKeeps(p, core, q[..|q| - 1]);
    } else {
      assert !Space(s[|s| - 1]) by {
        if q == "" { assert s[|s| - 1] == core[|core| - 1]; }
      }
      assert NoBracket(p);
    }
  }

  lemma TrimKeeps(s: string, core: string)
    requires Solid(core) && Keeps(s, core)
    ensures Keeps(Trim(s), core)
  {
    hide NoBracket, DropSpaces, DropSpacesEnd;
    var p, q :| NoBracket(p) && s == p + core + q;
    DropSpacesKeeps(p, core, q);
    var p', q' :| NoBracket(p') && DropSpaces(s) == p' + core + q';
    DropSpacesEndKeeps(p', core, q');
  }

  lemma Backticks(s: string, i: nat)
    requires i + 3 <= |s| && s[i..i + 3] == FENCE
    ensures s[i] == '`' && s[i + 1] == '`' && s[i + 2] == '`'
  {
    assert s[i..i + 3][0] == s[i] && s[i..i + 3][1] == s[i + 1] && s[i..i + 3][2] == s[i + 2];
  }

  /** A fence lies wholly outside `core`: three backticks cannot overlap a bracket. */
  lemma InsideFence(s: string, core: string)
    requires Solid(core) && Keeps(s, core) && |s| >= 6 && s[..3] == FENCE && s[|s| - 3..] == FENCE
    ensures Keeps(s[3..|s| - 3], core)
  {
    var p, q :| NoBracket(p) && s == p + core + q;
    var first, last := |p|, |p| + |core| - 1;
    assert s[first] == core[0] && s[last] == core[|core| - 1];
    Backticks(s, 0);
    Backticks(s, |s| - 3);
    assert first != 0 && first != 1 && first != 2;
    assert last != |s| - 1 && last != |s| - 2 && last != |s| - 3;
    SliceMiddle(p, core, q);
  }

  lemma SliceMiddle(p: string, core: string, q: string)
    requires NoBracket(p) && |p| >= 3 && |q| >= 3
    ensures Keeps((p + core + q)[3..|p + core + q| - 3], core)
  {
    assert (p + core + q)[3..|p + core + q| - 3] == p[3..] + core + q[..|q| - 3];
    assert NoBracket(p[3..]);
  }

  lemma NormalizeKeeps(content: string, core: string)
    requires Solid(core) && Keeps(content, core)
    ensures Keeps(Normalize(content), core)
  {
    hide NoBracket, DropSpaces, DropLetters, Trim;
    TrimKeeps(content, core);
    var s := Trim(content);
    if Unfence(s).Some? {
      InsideFence(s, core);
      var p, q :| NoBracket(p) && s[3..|s| - 3] == p + core + q;
      DropLettersKeeps(p, core, q);
      var p', q' :| NoBracket(p') && DropLetters(s[3..|s| - 3]) == p' + core + q';
      DropSpacesKeeps(p', core, q');
      TrimKeeps(Unfence(s).value, core);
    }
  }

  // ----- the extraction -----

  function FirstBracket(s: string): (r: Option<nat>)
    ensures r.Some? ==> r.value < |s| && Bracket(s[r.value]) && NoBracket(s[..r.value])
    ensures r.None? ==> NoBracket(s)
  {
    if s == "" then None
    else if Bracket(s[0]) then Some(0)
    else match FirstBracket(s[1..]) case None => None case Some(i) => Some(i + 1)
  }

  /** The text handed to `JSON.parse` by the fallback. */
  function Selected(s: string): Option<string> {
    match FirstBracket(s)
    case None => None
    case Some(start) =>
      match FindClose(s[start], Scan(0, false, false), s[start..])
      case None => None
      case Some(i) => Some(s[start..start + i + 1])
  }

  function Extract<J>(content: string, parse: string -> Option<J>): Option<J> {
    var s := Normalize(content);
    if parse(s).Some? then parse(s)
    else match Selected(s) case None => None case Some(t) => parse(t)
  }

  lemma {:induction false} FirstBracketAt(p: string, t: string)
    requires NoBracket(p) && t != "" && Bracket(t[0])
    ensures FirstBracket(p + t) == Some(|p|)
    decreases |p|
  {
    if p == "" {
      assert p + t == t;
    } else {
      assert (p + t)[1..] == p[1..] + t;
      FirstBracketAt(p[1..], t);
    }
  }

  lemma SelectedIsCore(p: string, v: Value, q: string)
    requires ValueOk(v) && (v.Arr? || v.Obj?) && NoBracket(p)
    ensures Selected(p + Print(v) + q) == Some(Print(v))
  {
    var text := Print(v);
    var s := p + text + q;
    ScanSelects(v, q);
    FirstBracketAt(p, text + q);
    assert s == p + (text + q);
    assert s[|p|..] == text + q;
    assert s[|p|..|p| + |text|] == text;
  }

  /** Extraction undoes printing: whatever bracket-free text comes before an object or array and whatever
      comes after it, with or without a code fence around it all, what reaches `JSON.parse` is the value's
      own text, unless the whole reply already was JSON. */
  lemma ExtractUndoesPrint<J>(prefix: string, v: Value, suffix: string, parse: string -> Option<J>)
    requires ValueOk(v) && (v.Arr? || v.Obj?) && NoBracket(prefix)
    requires parse(Normalize(prefix + Print(v) + suffix)) == None
    ensures Extract(prefix + Print(v) + suffix, parse) == parse(Print(v))
  {
    var core := Print(v);
    ScanSelects(v, suffix);
    hide Print, Normalize, NoBracket, Selected;
    assert Solid(core);
    NormalizeKeeps(prefix + core + suffix, core);
    var p, q :| NoBracket(p) && Normalize(prefix + core + suffix) == p + core + q;
    SelectedIsCore(p, v, q);
  }

  // ----- whole replies -----

  ghost predicate Spaces(s: string) {
    forall i :: 0 <= i < |s| ==> Space(s[i])
  }

  ghost predicate Letters(s: string) {
    forall i :: 0 <= i < |s| ==> 'a' <= s[i] <= 'z' || 'A' <= s[i] <= 'Z'
  }

  lemma {:induction false} SpacesDropped(p: string, rest: string)
    requires Spaces(p) && rest != "" && !Space(rest[0])
    ensures DropSpaces(p + rest) == rest
  {
    hide Space;
    if p == "" {
      assert p + rest == rest;
    } else {
      assert (p + rest)[0] == p[0] && (p + rest)[1..] == p[1..] + rest;
      SpacesDropped(p[1..], rest);
    }
  }

  lemma {:induction false} SpacesEndDropped(front: string, q: string)
    requires Spaces(q) && front != "" && !Space(front[|front| - 1])
    ensures DropSpacesEnd(front + q) == front
  {
    hide Space;
    if q == "" {
      assert front + q == front;
    } else {
      var s := front + q;
      assert s[|s| - 1] == q[|q| - 1] && s[..|s| - 1] == front + q[..|q| - 1];
      SpacesEndDropped(front, q[..|q| - 1]);
    }
  }

  /** Trimming takes the whitespace around a text, and nothing of the text. */
  lemma TrimAround(p: string, core: string, q: string)
    requires Spaces(p) && Spaces(q) && core != "" && !Space(core[0]) && !Space(core[|core| - 1])
    ensures Trim(p + core + q) == core
  {
    hide Space, DropSpaces, DropSpacesEnd;
    assert p + core + q == p + (core + q) && (core + q)[0] == core[0];
    SpacesDropped(p, core + q);
    SpacesEndDropped(core, q);
  }

  lemma {:induction false} LettersDropped(t: string, rest: string)
    requires Letters(t) && rest != "" && !Letter(rest[0])
    ensures DropLetters(t + rest) == rest
  {
    if t == "" {
      assert t + rest == rest;
    } else {
      assert (t + rest)[0] == t[0] && (t + rest)[1..] == t[1..] + rest;
      LettersDropped(t[1..], rest);
    }
  }

  lemma BracketEnds(v: Value)
    requires ValueOk(v) && (v.Arr? || v.Obj?)
    ensures var t := Print(v); t != "" && !Space(t[0]) && !Space(t[|t| - 1]) && !Letter(t[0])
    ensures Print(v)[0] != '`'
  {
    ScanSelects(v, "");
    hide ValueOk, FindClose, Print;
  }

  /** A reply that is an object or array with whitespace around it is that value's text. */
  lemma BareReply(p: string, v: Value, q: string)
    requires ValueOk(v) && (v.Arr? || v.Obj?) && Spaces(p) && Spaces(q)
    ensures Normalize(p + Print(v) + q) == Print(v)
  {
    BracketEnds(v);
    hide ValueOk, Print, Space, Trim;
    TrimAround(p, Print(v), q);
    assert |Print(v)| >= 3 ==> Print(v)[..3][0] == Print(v)[0];
  }

  lemma UnfenceIs(inside: string)
    ensures Unfence(FENCE + inside + FENCE) == Some(DropSpaces(DropLetters(inside)))
  {
    hide DropSpaces, DropLetters;
    var s := FENCE + inside + FENCE;
    assert s[..3] == FENCE && s[|s| - 3..] == FENCE && s[3..|s| - 3] == inside;
  }

  lemma InsideIs(tag: string, before: string, core: string, after: string)
    requires Letters(tag) && Spaces(before) && Spaces(after)
    requires core != "" && !Space(core[0]) && !Space(core[|core| - 1]) && !Letter(core[0])
    ensures Trim(DropSpaces(DropLetters(tag + (before + (core + after))))) == core
  {
    hide Space, Trim, DropLetters, DropSpaces;
    assert (core + after)[0] == core[0];
    StartsApart(before, core + after);
    LettersDropped(tag, before + (core + after));
    SpacesDropped(before, core + after);
    assert core + after == "" + core + after;
    TrimAround("", core, after);
  }

  /** So is one in a code fence, whatever its tag and the whitespace inside and around. */
  lemma FencedReply(p: string, tag: string, before: string, v: Value, after: string, q: string)
    requires ValueOk(v) && (v.Arr? || v.Obj?) && Spaces(p) && Spaces(q) && Spaces(before) && Spaces(after)
      && Letters(tag)
    ensures Normalize(p + (FENCE + (tag + (before + (Print(v) + after))) + FENCE) + q) == Print(v)
  {
    BracketEnds(v);
    NotSpace();
    hide ValueOk, Print, Space, Trim, DropLetters, DropSpaces, Unfence, Spaces, Letters;
    var inside := tag + (before + (Print(v) + after));
    var fenced := FENCE + inside + FENCE;
    assert fenced[0] == '`' && fenced[|fenced| - 1] == '`';
    TrimAround(p, fenced, q);
    UnfenceIs(inside);
    InsideIs(tag, before, Print(v), after);
  }

  lemma NotSpace()
    ensures !Space('`')
  {
  }

  lemma StartsApart(before: string, rest: string)
    requires Spaces(before) && rest != "" && !Letter(rest[0])
    ensures before + rest != "" && !Letter((before + rest)[0])
  {
    assert before != "" ==> Space(before[0]);
  }

  /** What reaches the caller: the whole reply where it parses, else the first object or array in it, else nothing. */
  lemma ExtractIs<J>(content: string, parse: string -> Option<J>)
    ensures parse(Normalize(content)).Some? ==> Extract(content, parse) == parse(Normalize(content))
    ensures parse(Normalize(content)).None? && NoBracket(Normalize(content)) ==> Extract(content, parse) == None
    ensures Extract(content, parse).Some? ==>
      exists i, j :: 0 <= i <= j <= |Normalize(content)| && Extract(content, parse) == parse(Normalize(content)[i..j])
  {
    var s := Normalize(content);
    hide Normalize, FindClose;
    assert s[0..|s|] == s;
    if parse(s).None? && Selected(s).Some? {
      var start := FirstBracket(s).value;
      assert Selected(s).value == s[start..start + FindClose(s[start], Scan(0, false, false), s[start..]).value + 1];
    }
  }

  lemma StringSample(text: Value)
    requires text == Str([Plain(']'), Escape('"')])
    ensures Print(text) == "\"]\\\"\"" && ValueOk(text)
  {
    PrintTwo(Plain(']'), Escape('"'));
  }

  /** The texts printed are JSON as written: brackets and escaped quotes inside strings, blanks, nesting. */
  lemma ArraySample()
    ensures exists v :: ValueOk(v) && Print(v) == "[\"]\\\"\", 1]"
  {
    var text, one := Str([Plain(']'), Escape('"')]), Scalar("1");
    var last := Elem(" ", one, "", NoElems);
    StringSample(text);
    assert PrintElems(last) == " 1" && ElemsOk(last);
    hide ItemsOk, PrintStr, ScalarOk;
    var v := Arr("", Elem("", text, "", last));
    assert Print(v) == "[" + (("" + ("" + (Print(text) + ("" + ("," + " 1"))))) + "]");
    assert ValueOk(v);
  }

  lemma MemberSample()
    ensures exists v :: ValueOk(v) && Print(v) == "{\"}\": []}"
  {
    var none := Arr("", NoElems);
    PrintOne(Plain('}'));
    assert PrintStr([Plain('}')]) == "\"}\"" && Print(none) == "[]";
    var v := Obj("", Member("", [Plain('}')], ("", " "), none, "", NoMembers));
    assert PrintMembers(v.members) == "\"}\": []";
    assert Print(v) == "{\"}\": []}";
    assert ValueOk(v);
  }

  lemma PrintOne(a: Item)
    ensures PrintItems([a]) == PrintItem(a)
  {
    assert [a][1..] == [];
  }

  lemma PrintTwo(a: Item, b: Item)
    ensures PrintItems([a, b]) == PrintItem(a) + PrintItem(b)
  {
    assert [a, b][1..] == [b];
    PrintOne(b);
  }

  /** The function as written: try the whole text, then scan. */
  method ParseJsonContent<J>(content: string, parse: string -> Option<J>) returns (r: Option<J>)
    ensures r == Extract(content, parse)
  {
    hide Normalize, FindClose;
    var s := Normalize(content);
    if parse(s).Some? {
      return parse(s);
    }
    var first := FirstBracket(s);
    if first == None {
      return None;
    }
    var start := first.value;
    var open := s[start];
    var close := CloserOf(open);
    var depth, inStr, esc := 0, false, false;
    for i := start to |s|
      invariant FindClose(open, Scan(0, false, false), s[start..])
        == Shift(FindClose(open, Scan(depth, inStr, esc), s[i..]), i - start)
    {
      var c := s[i];
      FindCloseTurn(open, Scan(depth, inStr, esc), s, i);
      if inStr {
        if esc { esc := false; }
        else if c == '\\' { esc := true; }
        else if c == '"' { inStr := false; }
        continue;
      }
      if c == '"' { inStr := true; }
      else if c == open { depth := depth + 1; }
      else if c == close {
        depth := depth - 1;
        if depth == 0 {
          return parse(s[start..i + 1]);
        }
      }
    }
    FindCloseNothing(open, Scan(depth, inStr, esc), s);
    return None;
  }

  function Shift(r: Option<nat>, k: nat): Option<nat> {
    match r case None => None case Some(i) => Some(i + k)
  }

  lemma FindCloseTurn(open: char, st: Scan, s: string, i: nat)
    requires i < |s|
    ensures FindClose(open, st, s[i..]) ==
            match Turn(open, st, s[i]) case Stop => Some(0) case Go(n) => Shift(FindClose(open, n, s[i + 1..]), 1)
  {
    assert s[i..][0] == s[i] && s[i..][1..] == s[i + 1..];
  }

  lemma FindCloseNothing(open: char, st: Scan, s: string)
    ensures FindClose(open, st, s[|s|..]) == None
  {
  }
}

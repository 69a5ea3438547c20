/** The lexical gate in front of every write path, and the bare-name rule. */
module PathVerdict {
  import opened JsText
  import opened PathWalk

  datatype Dest = RunWorkspace | AssetTree

  datatype StripReason = ClaudeSettings | ClaudeHooks

  datatype RejectReason = Escape | GitInternal | ReservedPrefix | AbsolutePath | Symlink | Nul | Empty

  datatype Verdict = Ok | Stripped(why: StripReason) | Reject(reason: RejectReason)

  // ----- lexicalVerdict -----

  /** `rel.replace(/\\/g, '/')`. */
  function Slashes(s: string): string {
    if s == "" then "" else [if s[0] == '\\' then '/' else s[0]] + Slashes(s[1..])
  }

  predicate DriveLetter(s: string) {
    |s| >= 2 && ('a' <= s[0] <= 'z' || 'A' <= s[0] <= 'Z') && s[1] == ':'
  }

  /** `split('/')` without the empty and `.` segments. */
  function Solid(parts: seq<string>): (r: seq<string>)
    ensures forall x :: x in r <==> x in parts && x != "" && x != "."
  {
    if parts == [] then []
    else (if parts[0] == "" || parts[0] == "." then [] else [parts[0]]) + Solid(parts[1..])
  }

  predicate Same(c: char, lower: char, upper: char) {
    c == lower || c == upper
  }

  /** `segment.toLowerCase().startsWith('rwe-')`. */
  predicate IsReservedPrefixed(s: string) {
    |s| >= 4 && Same(s[0], 'r', 'R') && Same(s[1], 'w', 'W') && Same(s[2], 'e', 'E') && s[3] == '-'
  }

  /** `strip` stands for the match of STRIP_RE on the normalised text. */
  function LexicalVerdict(dest: Dest, rel: string, strip: string -> Option<StripReason>): Verdict {
    if rel == "" then Reject(Empty)
    else if '\0' in rel then Reject(Nul)
    else
      var norm := Slashes(rel);
      if norm[..1] == "/" || DriveLetter(norm) then Reject(AbsolutePath)
      else
        var segments := Solid(Split(norm));
        if ".." in segments then Reject(Escape)
        else if segments != [] && IsReservedPrefixed(segments[0]) then Reject(ReservedPrefix)
        else if dest.RunWorkspace? && ".git" in segments then Reject(GitInternal)
        else if dest.RunWorkspace? && strip(norm).Some? then Stripped(strip(norm).value)
        else Ok
  }

  /** `pathVerdict`: the gate, then containment of the joined path. */
  function PathVerdictOf(dest: Dest, root: Path, rel: string, strip: string -> Option<StripReason>,
                         realpath: Path -> Option<Path>): Verdict {
    var lex := LexicalVerdict(dest, rel, strip);
    if lex != Ok then lex
    else if !IsPathContained(Join(root, Split(rel)), root, realpath) then Reject(Symlink)
    else Ok
  }

  // ----- which texts pass -----

  lemma {:induction false} SlashesIs(s: string)
    ensures |Slashes(s)| == |s|
    ensures forall i :: 0 <= i < |s| ==> Slashes(s)[i] == if s[i] == '\\' then '/' else s[i]
  {
    if s != "" {
      SlashesIs(s[1..]);
    }
  }

  predicate Blank(segment: string) {
    segment == "" || segment == "."
  }

  /** The first segment that names something starts with `rwe-`, in any letter case. */
  ghost predicate Reserved(segments: seq<string>) {
    exists k :: 0 <= k < |segments| && StartsReserved(segments[k]) && forall j :: 0 <= j < k ==> Blank(segments[j])
  }

  ghost predicate StartsReserved(segment: string) {
    && |segment| >= 4 && segment[0] in {'r', 'R'} && segment[1] in {'w', 'W'} && segment[2] in {'e', 'E'}
    && segment[3] == '-'
  }

  lemma {:induction false} SolidStarts(parts: seq<string>) returns (k: nat)
    ensures k <= |parts| && forall j :: 0 <= j < k ==> Blank(parts[j])
    ensures k == |parts| ==> Solid(parts) == []
    ensures k < |parts| ==> !Blank(parts[k]) && Solid(parts) != [] && Solid(parts)[0] == parts[k]
  {
    k := 0;
    if parts != [] && Blank(parts[0]) {
      var rest := SolidStarts(parts[1..]);
      k := rest + 1;
    }
  }

  lemma ReservedIs(parts: seq<string>)
    ensures Reserved(parts) <==> Solid(parts) != [] && IsReservedPrefixed(Solid(parts)[0])
  {
    var k := SolidStarts(parts);
    hide Solid;
    if Reserved(parts) {
      var i: nat :| i < |parts| && StartsReserved(parts[i]) && forall j :: 0 <= j < i ==> Blank(parts[j]);
      assert !Blank(parts[i]) && i == k;
    }
  }

  lemma NormStarts(rel: string)
    requires rel != ""
    ensures Slashes(rel)[..1] == "/" <==> rel[0] == '/' || rel[0] == '\\'
    ensures DriveLetter(Slashes(rel)) <==> |rel| >= 2 && ('a' <= rel[0] <= 'z' || 'A' <= rel[0] <= 'Z') && rel[1] == ':'
  {
    SlashesIs(rel);
    hide Slashes;
    assert Slashes(rel)[..1] == [Slashes(rel)[0]];
  }

  /** Backslashes read as slashes, the gate accepts exactly the texts that break no rule: not empty, no NUL, not
      absolute, no `..` segment, no reserved first name, and in a run workspace no `.git` segment and nothing that is
      stripped. */
  lemma GateIff(dest: Dest, rel: string, strip: string -> Option<StripReason>)
    ensures var segments := Split(Slashes(rel));
      LexicalVerdict(dest, rel, strip) == Ok <==>
      && rel != "" && '\0' !in rel && rel[0] != '/' && rel[0] != '\\'
      && !(|rel| >= 2 && ('a' <= rel[0] <= 'z' || 'A' <= rel[0] <= 'Z') && rel[1] == ':')
      && ".." !in segments && !Reserved(segments)
      && (dest == RunWorkspace ==> ".git" !in segments && strip(Slashes(rel)) == None)
  {
    hide Split, Slashes, Reserved, IsReservedPrefixed, DriveLetter, Solid;
    if rel != "" {
      NormStarts(rel);
    }
    ReservedIs(Split(Slashes(rel)));
  }

  /** A refusal names the first rule broken. */
  lemma GateOrder(dest: Dest, rel: string, strip: string -> Option<StripReason>)
    ensures var v, segments := LexicalVerdict(dest, rel, strip), Split(Slashes(rel));
      match v
      case Ok => true
      case Reject(Empty) => rel == ""
      case Reject(Nul) => '\0' in rel
      case Reject(AbsolutePath) =>
        && rel != "" && '\0' !in rel
        && (rel[0] == '/' || rel[0] == '\\'
            || (|rel| >= 2 && ('a' <= rel[0] <= 'z' || 'A' <= rel[0] <= 'Z') && rel[1] == ':'))
      case Reject(Escape) => ".." in segments
      case Reject(ReservedPrefix) => ".." !in segments && Reserved(segments)
      case Reject(GitInternal) => ".." !in segments && !Reserved(segments) && dest == RunWorkspace && ".git" in segments
      case Reject(Symlink) => false
      case Stripped(why) =>
        && ".." !in segments && !Reserved(segments)
        && dest == RunWorkspace && ".git" !in segments && strip(Slashes(rel)) == Some(why)
  {
    hide Split, Slashes, Reserved, IsReservedPrefixed, DriveLetter, Solid;
    if rel != "" {
      NormStarts(rel);
    }
    ReservedIs(Split(Slashes(rel)));
  }

  // ----- the gate implies containment -----

  /** Turning backslashes into slashes only cuts segments further: one without a backslash is still there. */
  lemma {:induction false} SegmentSurvives(s: string)
    ensures '\\' !in Split(s)[0] ==> Split(Slashes(s))[0] == Split(s)[0]
    ensures forall x :: x in Split(s)[1..] && '\\' !in x ==> x in Split(Slashes(s))[1..]
    decreases |s|
  {
    if s != "" {
      var t, n := s[1..], Slashes(s);
      SegmentSurvives(t);
      assert n[1..] == Slashes(t);
      var raw, cut := Split(t), Split(Slashes(t));
      if s[0] == '/' {
        assert Split(s)[1..] == raw && Split(n)[1..] == cut;
        Rest(raw, cut);
      } else if s[0] == '\\' {
        assert Split(s)[1..] == raw[1..] && Split(n)[1..] == cut;
        assert Split(s)[0][0] == '\\';
      } else {
        assert Split(s)[1..] == raw[1..] && Split(n)[1..] == cut[1..];
        assert Split(s)[0] == [s[0]] + raw[0];
        assert forall c :: c in raw[0] ==> c in Split(s)[0];
      }
    }
  }

  lemma Rest(raw: seq<string>, cut: seq<string>)
    requires raw != [] && cut != []
    requires '\\' !in raw[0] ==> cut[0] == raw[0]
    requires forall x :: x in raw[1..] && '\\' !in x ==> x in cut[1..]
    ensures forall x :: x in raw && '\\' !in x ==> x in cut
  {
    assert raw == [raw[0]] + raw[1..] && cut == [cut[0]] + cut[1..];
  }

  lemma {:induction false} JoinStaysUnder(root: Path, cur: Path, parts: seq<string>)
    requires root <= cur && !Climbs(parts)
    ensures root <= Join(cur, parts)
    decreases |parts|
  {
    if parts != [] {
      assert !Climbs(parts[1..]) && parts[0] != "..";
      JoinStaysUnder(root, if parts[0] == "" || parts[0] == "." then cur else cur + [parts[0]], parts[1..]);
    }
  }

  /** Whatever the gate accepts joins to a location at or under the root, although the gate looks at the text
      with its backslashes turned and the join at the text as it is. */
  lemma GateContains(dest: Dest, root: Path, rel: string, strip: string -> Option<StripReason>)
    requires LexicalVerdict(dest, rel, strip) == Ok
    ensures root <= Join(root, Split(rel))
  {
    SegmentSurvives(rel);
    Rest(Split(rel), Split(Slashes(rel)));
    assert ".." !in Solid(Split(Slashes(rel)));
    JoinStaysUnder(root, root, Split(rel));
  }

  /** Without links in the way, the containment check behind the gate refuses what the gate accepts exactly when
      the root is that of the file system and the path names something below it. */
  lemma GateIsEnough(dest: Dest, root: Path, rel: string, strip: string -> Option<StripReason>,
        realpath: Path -> Option<Path>)
    requires LexicalVerdict(dest, rel, strip) == Ok && Clean(root)
    requires forall q :: Clean(q) ==> realpath(q) == None || realpath(q) == Some(q)
    ensures PathVerdictOf(dest, root, rel, strip, realpath) ==
            if root == [] && Join(root, Split(rel)) != root then Reject(Symlink) else Ok
  {
    GateContains(dest, root, rel, strip);
    SplitParts(rel);
    var at := Join(root, Split(rel));
    JoinIsClean(root, Split(rel));
    hide LexicalVerdict, Join, Split, Render;
    PrefixIsNesting(root, at);
  }

  lemma {:induction false} JoinIsClean(cur: Path, parts: seq<string>)
    requires Clean(cur) && PartsOk(parts)
    ensures Clean(Join(cur, parts))
    decreases |parts|
  {
    if parts != [] {
      assert NoSlash(parts[0]);
      var next := if parts[0] == "" || parts[0] == "." then cur
                  else if parts[0] == ".." then Parent(cur) else cur + [parts[0]];
      JoinIsClean(next, parts[1..]);
    }
  }

  /** The whole verdict: the gate's refusal stands; what the gate accepts is refused exactly when its location is not
      contained; and what is accepted passed the gate, is contained, and joins to a location at or under the root. */
  lemma VerdictIs(dest: Dest, root: Path, rel: string, strip: string -> Option<StripReason>,
        realpath: Path -> Option<Path>)
    ensures var v := PathVerdictOf(dest, root, rel, strip, realpath);
      && (LexicalVerdict(dest, rel, strip) != Ok ==> v == LexicalVerdict(dest, rel, strip) && v != Reject(Symlink))
      && (v == Reject(Symlink) <==> LexicalVerdict(dest, rel, strip) == Ok
                                    && !IsPathContained(Join(root, Split(rel)), root, realpath))
      && (v == Ok ==> LexicalVerdict(dest, rel, strip) == Ok && root <= Join(root, Split(rel))
                      && IsPathContained(Join(root, Split(rel)), root, realpath))
  {
    GateOrder(dest, rel, strip);
    if LexicalVerdict(dest, rel, strip) == Ok {
      GateContains(dest, root, rel, strip);
    }
    hide LexicalVerdict, IsPathContained, Join, Split, Slashes, Reserved;
  }

  // ----- bare names -----

  const MAX_BARE_NAME_LENGTH: nat := 128
  const MAX_BARE_NAME_BYTES: nat := 200

  datatype BareNameRule = IsEmpty | MaxChars | Whitespace | Separator | ControlChar | DotSegment | MaxBytes

  predicate Control(c: char) {
    c as int <= 0x1f || c as int == 0x7f
  }

  /** The first rule a name breaks, in the order they are checked. */
  function BareNameViolation(name: string): Option<BareNameRule> {
    if name == "" then Some(IsEmpty)
    else if Length(name) > MAX_BARE_NAME_LENGTH then Some(MaxChars)
    else if Trim(name) != name then Some(Whitespace)
    else if '/' in name || '\\' in name then Some(Separator)
    else if exists c | c in name :: Control(c) then Some(ControlChar)
    else if name == "." || name == ".." then Some(DotSegment)
    else if ByteLength(name) > MAX_BARE_NAME_BYTES then Some(MaxBytes)
    else None
  }

  predicate IsValidBareName(name: string) {
    BareNameViolation(name) == None
  }

  /** The valid names: not empty, at most 128 UTF-16 units and 200 bytes, no whitespace at either end, no separator,
      no control character anywhere, and not a dot segment. */
  lemma BareNameIff(name: string)
    ensures IsValidBareName(name) <==>
      && name != "" && name != "." && name != ".." && Length(name) <= 128 && ByteLength(name) <= 200
      && !Space(name[0]) && !Space(name[|name| - 1])
      && forall c :: c in name ==> c != '/' && c != '\\' && c as int > 0x1f && c as int != 0x7f
  {
    TrimmedIff(name);
    hide Trim, Space, Length, ByteLength;
  }

  /** `_lenientWorkflowSegmentOk`: the containment rules alone. */
  predicate LenientSegmentOk(name: string) {
    name != "" && name != "." && name != ".." && '\0' !in name && '/' !in name && '\\' !in name
  }

  /** A name that passes the lenient deletion check can only name a direct child of the root, and every
      registrable name passes it, so no registered tree is ever orphaned. */
  lemma NameIsDirectChild(root: Path, name: string)
    ensures IsValidBareName(name) ==> LenientSegmentOk(name)
    ensures LenientSegmentOk(name) ==> Join(root, Split(name)) == root + [name]
  {
    if IsValidBareName(name) {
      assert Control('\0');
    }
    if LenientSegmentOk(name) {
      SplitOne(name);
      assert [name][1..] == [];
      assert Join(root + [name], []) == root + [name];
    }
  }

  lemma TerminatedPrefix(a: string, b: string, rest: string, sep: char)
    requires sep !in a && sep !in b && a + [sep] <= b + [sep] + rest
    ensures a == b
  {
    var key := b + [sep] + rest;
    assert forall i :: 0 <= i < |b| ==> key[i] == b[i];
    assert forall i :: 0 <= i < |a| ==> (a + [sep])[i] == a[i] == key[i];
    assert (a + [sep])[|a|] == sep == key[|a|] && key[|b|] == sep;
    assert |b| <= |a|;
    assert |a| <= |b|;
  }

  /** The render cache's key: the name, a NUL and the version. Dropping the keys that start with a name and a
      NUL drops exactly that name's. */
  lemma KeyPrefixIsName(name: string, other: string, version: string)
    requires IsValidBareName(name) && IsValidBareName(other)
    ensures name + "\0" <= other + "\0" + version <==> name == other
  {
    assert Control('\0');
    if name + "\0" <= other + "\0" + version {
      TerminatedPrefix(name, other, version, '\0');
    }
  }
}

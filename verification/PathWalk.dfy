/** `resolveLanding`: where a path really lands, following links component by component, and
    `isPathContained` on top of it. */
module PathWalk {
  import opened JsText

  datatype Node = Dir | File | Link(target: string)

  /** An absolute location as its components; `[]` is the root. */
  type Path = seq<string>

  /** What is on disk at each location other than the root. */
  type FS = map<Path, Node>

  predicate CleanName(c: string) {
    c != "" && c != "." && c != ".." && NoSlash(c)
  }

  predicate Clean(p: Path) {
    forall i :: 0 <= i < |p| ==> CleanName(p[i])
  }

  function Parent(p: Path): Path {
    if p == [] then [] else p[..|p| - 1]
  }

  /** Everything on disk sits in a directory. */
  ghost predicate WellFormed(fs: FS) {
    forall p :: p in fs ==> p != [] && (Parent(p) == [] || (Parent(p) in fs && fs[Parent(p)].Dir?))
  }

  function Tail(p: Path): string {
    if p == [] then "" else Tail(p[..|p| - 1]) + "/" + p[|p| - 1]
  }

  /** The location as the string the code carries. */
  function Render(p: Path): string {
    if p == [] then "/" else Tail(p)
  }

  /** `path.join(cur, ...parts)`: purely textual. */
  function Join(cur: Path, parts: seq<string>): Path
    decreases |parts|
  {
    if parts == [] then cur
    else if parts[0] == "" || parts[0] == "." then Join(cur, parts[1..])
    else if parts[0] == ".." then Join(Parent(cur), parts[1..])
    else Join(cur + [parts[0]], parts[1..])
  }

  const HOPS: nat := 40

  predicate Absolute(target: string) {
    target != "" && target[0] == '/'
  }

  function FromLink(cur: Path, target: string): string {
    if Absolute(target) then target else Render(cur) + "/" + target
  }

  /** The loop of `resolveLanding`, from `cur` on, with `hops` links already nested. */
  function Walk(fs: FS, cur: Path, parts: seq<string>, hops: nat): Path
    requires hops <= HOPS
    decreases HOPS - hops, |parts|
  {
    if parts == [] then cur
    else if parts[0] == "" || parts[0] == "." then Walk(fs, cur, parts[1..], hops)
    else if parts[0] == ".." then Walk(fs, Parent(cur), parts[1..], hops)
    else
      var next := cur + [parts[0]];
      if next !in fs then Join(next, parts[1..])
      else if !fs[next].Link? then Walk(fs, next, parts[1..], hops)
      else if hops == HOPS then next
      else Walk(fs, Walk(fs, [], Split(FromLink(cur, fs[next].target)), hops + 1), parts[1..], hops)
  }

  method ResolveLanding(fs: FS, p: string, hops: nat) returns (landing: Path)
    requires hops <= HOPS
    ensures landing == Walk(fs, [], Split(p), hops)
    decreases HOPS - hops
  {
    var parts := Split(p);
    var cur: Path := [];
    for i := 0 to |parts|
      invariant Walk(fs, cur, parts[i..], hops) == Walk(fs, [], parts, hops)
    {
      var part := parts[i];
      assert parts[i..][0] == part && parts[i..][1..] == parts[i + 1..];
      if part == "" || part == "." {
        continue;
      }
      if part == ".." {
        cur := Parent(cur);
        continue;
      }
      var next := cur + [part];
      if next !in fs {
        return Join(next, parts[i + 1..]);
      }
      if !fs[next].Link? {
        cur := next;
        continue;
      }
      if hops >= HOPS {
        return next;
      }
      cur := ResolveLanding(fs, FromLink(cur, fs[next].target), hops + 1);
    }
    return cur;
  }

  // ----- pathname resolution as the kernel does it -----

  /** `left` is how many more links could have been followed; `created` that the place is new. */
  datatype Resolution = Landed(at: Path, left: nat, created: bool) | Fails

  predicate Climbs(parts: seq<string>) {
    ".." in parts
  }

  /** POSIX.1-2017 XBD section 4.13: a link's text goes in front of what is left of the pathname, and a file may
      only end it. What follows a missing component must be names still to be created below it, as a recursive
      `mkdir` would; climbing out of it fails. A dangling final link lands where its target would be created. */
  function Kernel(fs: FS, cur: Path, parts: seq<string>, fuel: nat): Resolution
    decreases fuel, |parts|
  {
    if parts == [] then Landed(cur, fuel, false)
    else if parts[0] == "" || parts[0] == "." then Kernel(fs, cur, parts[1..], fuel)
    else if parts[0] == ".." then Kernel(fs, Parent(cur), parts[1..], fuel)
    else
      var next := cur + [parts[0]];
      if next !in fs then if Climbs(parts[1..]) then Fails else Landed(Join(next, parts[1..]), fuel, true)
      else
        match fs[next]
        case Dir => Kernel(fs, next, parts[1..], fuel)
        case File => if parts[1..] == [] then Landed(next, fuel, false) else Fails
        case Link(target) =>
          if fuel == 0 then Fails
          else Kernel(fs, if Absolute(target) then [] else cur, Split(target) + parts[1..], fuel - 1)
  }

  // ----- locations that hold no link -----

  ghost predicate RealDir(fs: FS, p: Path) {
    Clean(p) && forall k :: 0 < k <= |p| ==> p[..k] in fs && fs[p[..k]].Dir?
  }

  /** No prefix of `p` that exists is a link. */
  ghost predicate LinkFree(fs: FS, p: Path) {
    Clean(p) && forall k :: 0 < k <= |p| && p[..k] in fs ==> !fs[p[..k]].Link?
  }

  predicate PartsOk(parts: seq<string>) {
    forall x :: x in parts ==> NoSlash(x)
  }

  lemma RealParent(fs: FS, p: Path)
    requires RealDir(fs, p)
    ensures RealDir(fs, Parent(p))
  {
    forall k | 0 < k <= |Parent(p)|
      ensures Parent(p)[..k] in fs && fs[Parent(p)[..k]].Dir?
    {
      assert Parent(p)[..k] == p[..k];
    }
  }

  lemma RealChild(fs: FS, p: Path, c: string)
    requires RealDir(fs, p) && CleanName(c) && p + [c] in fs && fs[p + [c]].Dir?
    ensures RealDir(fs, p + [c])
  {
    forall k | 0 < k <= |p + [c]|
      ensures (p + [c])[..k] in fs && fs[(p + [c])[..k]].Dir?
    {
      assert k <= |p| ==> (p + [c])[..k] == p[..k];
      assert k == |p| + 1 ==> (p + [c])[..k] == p + [c];
    }
  }

  /** Splitting the rendered location gives its components back, after empty ones. */
  lemma {:induction false} SplitTail(p: Path)
    requires Clean(p)
    ensures Split(Tail(p)) == [""] + p
    decreases |p|
  {
    if p != [] {
      var front, last := p[..|p| - 1], p[|p| - 1];
      SplitTail(front);
      SplitConcat(Tail(front), last);
      SplitOne(last);
      assert p == front + [last];
    }
  }

  /** Walking a link-free directory's own components leads back to it. */
  lemma {:induction false} WalkReal(fs: FS, p: Path, done: nat, rest: seq<string>, hops: nat)
    requires RealDir(fs, p) && done <= |p| && hops <= HOPS
    ensures Walk(fs, p[..done], p[done..] + rest, hops) == Walk(fs, p, rest, hops)
    decreases |p| - done
  {
    if done == |p| {
      assert p[..done] == p && p[done..] + rest == rest;
    } else {
      var parts := p[done..] + rest;
      assert parts[0] == p[done] && parts[1..] == p[done + 1..] + rest;
      assert p[..done] + [p[done]] == p[..done + 1];
      WalkReal(fs, p, done + 1, rest, hops);
    }
  }

  lemma SkipBlank(fs: FS, cur: Path, parts: seq<string>, hops: nat)
    requires hops <= HOPS
    ensures Walk(fs, cur, [""] + parts, hops) == Walk(fs, cur, parts, hops)
  {
    assert ([""] + parts)[1..] == parts;
  }

  lemma SplitRoot()
    ensures Split("/") == [""] + [""]
  {
    assert "/"[1..] == "" && Split("") == [""];
  }

  /** Restarting from the rendered directory is the same as going on from it. */
  lemma WalkFromLink(fs: FS, cur: Path, target: string, hops: nat)
    requires RealDir(fs, cur) && hops <= HOPS
    ensures Walk(fs, [], Split(FromLink(cur, target)), hops) ==
            Walk(fs, if Absolute(target) then [] else cur, Split(target), hops)
  {
    hide Walk, Split, Tail;
    if !Absolute(target) {
      var rest := Split(target);
      SplitConcat(Render(cur), target);
      if cur == [] {
        SplitRoot();
        assert Split("/") + rest == [""] + ([""] + rest);
        SkipBlank(fs, [], [""] + rest, hops);
        SkipBlank(fs, [], rest, hops);
      } else {
        SplitTail(cur);
        assert [""] + cur + rest == [""] + (cur + rest);
        SkipBlank(fs, [], cur + rest, hops);
        assert cur[..0] == [] && cur[0..] == cur;
        WalkReal(fs, cur, 0, rest, hops);
      }
    }
  }

  // ----- the walk agrees with the kernel -----

  /** Textual joining does not climb when there is nothing to climb. */
  lemma {:induction false} JoinConcat(cur: Path, a: seq<string>, b: seq<string>)
    ensures Join(cur, a + b) == Join(Join(cur, a), b)
    decreases |a|
  {
    if a == [] {
      assert a + b == b;
    } else {
      assert (a + b)[1..] == a[1..] + b;
      var next := if a[0] == "" || a[0] == "." then cur else if a[0] == ".." then Parent(cur) else cur + [a[0]];
      JoinConcat(next, a[1..], b);
    }
  }

  /** What it means that resolving `a` and then `b` is resolving `a` first and going on from there with the links
      that are left. */
  ghost predicate Splits(fs: FS, cur: Path, a: seq<string>, b: seq<string>, fuel: nat) {
    var first := Kernel(fs, cur, a, fuel);
    && first.Landed? && first.left <= fuel
    && (if first.created then !Climbs(b) && Kernel(fs, cur, a + b, fuel) == Landed(Join(first.at, b), first.left, true)
        else (b != [] ==> RealDir(fs, first.at)) && Kernel(fs, cur, a + b, fuel) == Kernel(fs, first.at, b, first.left))
  }

  lemma SplitsOn(fs: FS, cur: Path, a: seq<string>, b: seq<string>, fuel: nat, cur': Path, a': seq<string>, fuel': nat)
    requires fuel' <= fuel && Splits(fs, cur', a', b, fuel')
    requires Kernel(fs, cur, a, fuel) == Kernel(fs, cur', a', fuel')
      && Kernel(fs, cur, a + b, fuel) == Kernel(fs, cur', a' + b, fuel')
    ensures Splits(fs, cur, a, b, fuel)
  {
    hide Kernel, RealDir;
  }

  lemma {:induction false} KernelSplit(fs: FS, cur: Path, a: seq<string>, b: seq<string>, fuel: nat)
    requires RealDir(fs, cur) && PartsOk(a) && Kernel(fs, cur, a + b, fuel).Landed?
    ensures Splits(fs, cur, a, b, fuel)
    decreases fuel, |a|
  {
    if a == [] {
      assert a + b == b;
    } else {
      assert (a + b)[0] == a[0] && (a + b)[1..] == a[1..] + b;
      if a[0] == "" || a[0] == "." {
        KernelSplit(fs, cur, a[1..], b, fuel);
        SplitsOn(fs, cur, a, b, fuel, cur, a[1..], fuel);
      } else if a[0] == ".." {
        RealParent(fs, cur);
        KernelSplit(fs, Parent(cur), a[1..], b, fuel);
        SplitsOn(fs, cur, a, b, fuel, Parent(cur), a[1..], fuel);
      } else {
        var next := cur + [a[0]];
        if next !in fs {
          JoinConcat(next, a[1..], b);
        } else {
          match fs[next]
          case Dir =>
            RealChild(fs, cur, a[0]);
            KernelSplit(fs, next, a[1..], b, fuel);
            SplitsOn(fs, cur, a, b, fuel, next, a[1..], fuel);
          case File =>
          case Link(target) =>
            SplitAtLink(fs, cur, target, a, b, fuel);
        }
      }
    }
  }

  lemma {:induction false} SplitAtLink(fs: FS, cur: Path, target: string, a: seq<string>, b: seq<string>, fuel: nat)
    requires RealDir(fs, cur) && PartsOk(a) && Kernel(fs, cur, a + b, fuel).Landed? && AtLink(fs, cur, target, a)
    ensures Splits(fs, cur, a, b, fuel)
    decreases fuel, |a|, 0
  {
    hide Kernel, Split, Absolute, Splits;
    var base, rest := if Absolute(target) then [] else cur, Split(target) + a[1..];
    assert (a + b)[0] == a[0] && (a + b)[1..] == a[1..] + b;
    KernelAtLink(fs, cur, target, a + b, fuel);
    KernelAtLink(fs, cur, target, a, fuel);
    SplitParts(target);
    assert Split(target) + (a[1..] + b) == rest + b;
    KernelSplit(fs, base, rest, b, fuel - 1);
    SplitsOn(fs, cur, a, b, fuel, base, rest, fuel - 1);
  }

  /** From a location that does not exist, the walk only joins. */
  lemma {:induction false} WalkMissing(fs: FS, cur: Path, parts: seq<string>, hops: nat)
    requires WellFormed(fs) && cur != [] && cur !in fs && !Climbs(parts) && hops <= HOPS
    ensures Walk(fs, cur, parts, hops) == Join(cur, parts)
    decreases |parts|
  {
    if parts != [] {
      assert !Climbs(parts[1..]) && parts[0] != "..";
      if parts[0] == "" || parts[0] == "." {
        WalkMissing(fs, cur, parts[1..], hops);
      } else {
        assert Parent(cur + [parts[0]]) == cur;
      }
    }
  }

  /** Where the kernel lands a name it has to create, nothing exists. */
  lemma {:induction false} CreatedIsMissing(fs: FS, cur: Path, parts: seq<string>, fuel: nat)
    requires WellFormed(fs) && Kernel(fs, cur, parts, fuel).Landed? && Kernel(fs, cur, parts, fuel).created
    ensures Kernel(fs, cur, parts, fuel).at !in fs && Kernel(fs, cur, parts, fuel).at != []
    decreases fuel, |parts|
  {
    if parts[0] == "" || parts[0] == "." {
      CreatedIsMissing(fs, cur, parts[1..], fuel);
    } else if parts[0] == ".." {
      CreatedIsMissing(fs, Parent(cur), parts[1..], fuel);
    } else {
      var next := cur + [parts[0]];
      if next !in fs {
        JoinMissing(fs, next, parts[1..]);
      } else {
        match fs[next]
        case Dir => CreatedIsMissing(fs, next, parts[1..], fuel);
        case Link(target) =>
          CreatedIsMissing(fs, if Absolute(target) then [] else cur, Split(target) + parts[1..], fuel - 1);
        case File =>
      }
    }
  }

  lemma {:induction false} JoinMissing(fs: FS, cur: Path, parts: seq<string>)
    requires WellFormed(fs) && cur != [] && cur !in fs && !Climbs(parts)
    ensures Join(cur, parts) !in fs && Join(cur, parts) != []
    decreases |parts|
  {
    if parts != [] {
      assert !Climbs(parts[1..]) && parts[0] != "..";
      if parts[0] != "" && parts[0] != "." {
        assert Parent(cur + [parts[0]]) == cur;
        JoinMissing(fs, cur + [parts[0]], parts[1..]);
      } else {
        JoinMissing(fs, cur, parts[1..]);
      }
    }
  }

  /** Wherever the kernel lands a pathname within the links that are left, so does the walk. */
  lemma {:induction false} WalkAgrees(fs: FS, cur: Path, parts: seq<string>, hops: nat, fuel: nat)
    requires WellFormed(fs) && RealDir(fs, cur) && PartsOk(parts) && hops + fuel <= HOPS
    requires Kernel(fs, cur, parts, fuel).Landed?
    ensures Walk(fs, cur, parts, hops) == Kernel(fs, cur, parts, fuel).at
    decreases fuel, |parts|
  {
    if parts != [] {
      if parts[0] == "" || parts[0] == "." {
        WalkAgrees(fs, cur, parts[1..], hops, fuel);
      } else if parts[0] == ".." {
        RealParent(fs, cur);
        WalkAgrees(fs, Parent(cur), parts[1..], hops, fuel);
      } else {
        var next := cur + [parts[0]];
        if next in fs {
          match fs[next]
          case Dir =>
            RealChild(fs, cur, parts[0]);
            WalkAgrees(fs, next, parts[1..], hops, fuel);
          case File =>
          case Link(target) => WalkThroughLink(fs, cur, target, parts, hops, fuel);
        }
      }
    }
  }

  /** `parts` begins with a link to `target`. */
  ghost predicate AtLink(fs: FS, cur: Path, target: string, parts: seq<string>) {
    && parts != [] && parts[0] != "" && parts[0] != "." && parts[0] != ".."
    && cur + [parts[0]] in fs && fs[cur + [parts[0]]] == Link(target)
  }

  lemma KernelAtLink(fs: FS, cur: Path, target: string, parts: seq<string>, fuel: nat)
    requires AtLink(fs, cur, target, parts)
    ensures Kernel(fs, cur, parts, fuel).Landed? ==> fuel > 0
    ensures fuel > 0 ==>
      Kernel(fs, cur, parts, fuel)
      == Kernel(fs, if Absolute(target) then [] else cur, Split(target) + parts[1..], fuel - 1)
  {
    hide Split;
  }

  lemma WalkAtLink(fs: FS, cur: Path, target: string, parts: seq<string>, hops: nat)
    requires AtLink(fs, cur, target, parts) && RealDir(fs, cur) && hops < HOPS
    ensures Walk(fs, cur, parts, hops) ==
            Walk(fs, Walk(fs, if Absolute(target) then [] else cur, Split(target), hops + 1), parts[1..], hops)
  {
    WalkFromLink(fs, cur, target, hops + 1);
    hide Split, FromLink, RealDir;
  }

  lemma {:induction false} WalkThroughLink(fs: FS, cur: Path, target: string, parts: seq<string>, hops: nat, fuel: nat)
    requires WellFormed(fs) && RealDir(fs, cur) && PartsOk(parts) && hops + fuel <= HOPS
    requires AtLink(fs, cur, target, parts) && Kernel(fs, cur, parts, fuel).Landed?
    ensures Walk(fs, cur, parts, hops) == Kernel(fs, cur, parts, fuel).at
    decreases fuel, |parts|, 0
  {
    hide Walk, Kernel, Split, Absolute, WellFormed;
    var base, rest := if Absolute(target) then [] else cur, parts[1..];
    KernelAtLink(fs, cur, target, parts, fuel);
    WalkAtLink(fs, cur, target, parts, hops);
    SplitParts(target);
    KernelSplit(fs, base, Split(target), rest, fuel - 1);
    var first := Kernel(fs, base, Split(target), fuel - 1);
    WalkAgrees(fs, base, Split(target), hops + 1, fuel - 1);
    if first.created {
      CreatedIsMissing(fs, base, Split(target), fuel - 1);
      WalkMissing(fs, first.at, rest, hops);
    } else if rest != [] {
      WalkAgrees(fs, first.at, rest, hops, first.left);
    } else {
      KernelEnd(fs, first.at, first.left);
      WalkEnd(fs, first.at, hops);
    }
  }

  lemma KernelEnd(fs: FS, cur: Path, fuel: nat)
    ensures Kernel(fs, cur, [], fuel) == Landed(cur, fuel, false)
  {
  }

  lemma WalkEnd(fs: FS, cur: Path, hops: nat)
    requires hops <= HOPS
    ensures Walk(fs, cur, [], hops) == cur && Smooth(fs, cur, [], hops)
  {
  }

  /** `resolveLanding` lands where the kernel does, for every pathname the kernel resolves with its 40 links
      and every way of laying out directories, files and links. */
  lemma LandingIsKernels(fs: FS, p: string)
    requires WellFormed(fs) && Kernel(fs, [], Split(p), HOPS).Landed?
    ensures Walk(fs, [], Split(p), 0) == Kernel(fs, [], Split(p), HOPS).at
  {
    SplitParts(p);
    WalkAgrees(fs, [], Split(p), 0, HOPS);
  }

  // ----- the landing holds no link, so walking it again stays put -----

  lemma {:induction false} JoinLinkFree(fs: FS, cur: Path, parts: seq<string>)
    requires WellFormed(fs) && cur != [] && cur !in fs && !Climbs(parts) && PartsOk(parts) && LinkFree(fs, cur)
    ensures LinkFree(fs, Join(cur, parts))
    decreases |parts|
  {
    if parts != [] {
      assert !Climbs(parts[1..]) && parts[0] != "..";
      if parts[0] == "" || parts[0] == "." {
        JoinLinkFree(fs, cur, parts[1..]);
      } else {
        assert Parent(cur + [parts[0]]) == cur;
        LinkFreeChild(fs, cur, parts[0]);
        JoinLinkFree(fs, cur + [parts[0]], parts[1..]);
      }
    }
  }

  lemma LinkFreeChild(fs: FS, p: Path, c: string)
    requires LinkFree(fs, p) && CleanName(c) && (p + [c] in fs ==> !fs[p + [c]].Link?)
    ensures LinkFree(fs, p + [c])
  {
    forall k | 0 < k <= |p + [c]| && (p + [c])[..k] in fs
      ensures !fs[(p + [c])[..k]].Link?
    {
      assert k <= |p| ==> (p + [c])[..k] == p[..k];
      assert k == |p| + 1 ==> (p + [c])[..k] == p + [c];
    }
  }

  /** The walk never climbs out of a missing component by text alone and never meets the limit on nested links:
      the guards of the two branches that end it early. */
  ghost predicate Smooth(fs: FS, cur: Path, parts: seq<string>, hops: nat)
    requires hops <= HOPS
    decreases HOPS - hops, |parts|
  {
    if parts == [] then true
    else if parts[0] == "" || parts[0] == "." then Smooth(fs, cur, parts[1..], hops)
    else if parts[0] == ".." then Smooth(fs, Parent(cur), parts[1..], hops)
    else
      var next := cur + [parts[0]];
      if next !in fs then !Climbs(parts[1..])
      else if !fs[next].Link? then Smooth(fs, next, parts[1..], hops)
      else
        && hops < HOPS
        && var target := Split(FromLink(cur, fs[next].target));
           Smooth(fs, [], target, hops + 1) && Smooth(fs, Walk(fs, [], target, hops + 1), parts[1..], hops)
  }

  lemma LinkFreeParent(fs: FS, p: Path)
    requires LinkFree(fs, p)
    ensures LinkFree(fs, Parent(p))
  {
    assert forall k :: 0 < k <= |Parent(p)| ==> Parent(p)[..k] == p[..k];
  }

  lemma {:induction false} WalkStaysLinkFree(fs: FS, cur: Path, parts: seq<string>, hops: nat)
    requires hops <= HOPS && WellFormed(fs) && LinkFree(fs, cur) && PartsOk(parts) && Smooth(fs, cur, parts, hops)
    ensures LinkFree(fs, Walk(fs, cur, parts, hops))
    decreases HOPS - hops, |parts|
  {
    if parts != [] {
      if parts[0] == "" || parts[0] == "." {
        WalkStaysLinkFree(fs, cur, parts[1..], hops);
      } else if parts[0] == ".." {
        LinkFreeParent(fs, cur);
        WalkStaysLinkFree(fs, Parent(cur), parts[1..], hops);
      } else {
        var next := cur + [parts[0]];
        if next !in fs {
          LinkFreeChild(fs, cur, parts[0]);
          JoinLinkFree(fs, next, parts[1..]);
        } else if !fs[next].Link? {
          LinkFreeChild(fs, cur, parts[0]);
          WalkStaysLinkFree(fs, next, parts[1..], hops);
        } else {
          var target := Split(FromLink(cur, fs[next].target));
          SplitParts(FromLink(cur, fs[next].target));
          WalkStaysLinkFree(fs, [], target, hops + 1);
          WalkStaysLinkFree(fs, Walk(fs, [], target, hops + 1), parts[1..], hops);
        }
      }
    }
  }

  /** When no `..` follows a missing component and the limit on nested links is not met, no existing prefix of
      the landing is a link. A file used as a directory and any number of links one after the other are fine. */
  lemma LandingLinkFree(fs: FS, p: string)
    requires WellFormed(fs) && Smooth(fs, [], Split(p), 0)
    ensures LinkFree(fs, Walk(fs, [], Split(p), 0))
  {
    SplitParts(p);
    WalkStaysLinkFree(fs, [], Split(p), 0);
  }

  // ----- what the kernel resolves is smooth -----

  lemma {:induction false} SmoothReal(fs: FS, p: Path, done: nat, rest: seq<string>, hops: nat)
    requires RealDir(fs, p) && done <= |p| && hops <= HOPS
    ensures Smooth(fs, p[..done], p[done..] + rest, hops) == Smooth(fs, p, rest, hops)
    decreases |p| - done
  {
    if done == |p| {
      assert p[..done] == p && p[done..] + rest == rest;
    } else {
      var parts := p[done..] + rest;
      assert parts[0] == p[done] && parts[1..] == p[done + 1..] + rest;
      assert p[..done] + [p[done]] == p[..done + 1];
      SmoothReal(fs, p, done + 1, rest, hops);
    }
  }

  lemma SmoothBlank(fs: FS, cur: Path, parts: seq<string>, hops: nat)
    requires hops <= HOPS
    ensures Smooth(fs, cur, [""] + parts, hops) == Smooth(fs, cur, parts, hops)
  {
    assert ([""] + parts)[1..] == parts;
  }

  lemma SmoothFromLink(fs: FS, cur: Path, target: string, hops: nat)
    requires RealDir(fs, cur) && hops <= HOPS
    ensures Smooth(fs, [], Split(FromLink(cur, target)), hops) ==
            Smooth(fs, if Absolute(target) then [] else cur, Split(target), hops)
  {
    hide Smooth, Split, Tail;
    if !Absolute(target) {
      var rest := Split(target);
      SplitConcat(Render(cur), target);
      if cur == [] {
        SplitRoot();
        assert Split("/") + rest == [""] + ([""] + rest);
        SmoothBlank(fs, [], [""] + rest, hops);
        SmoothBlank(fs, [], rest, hops);
      } else {
        SplitTail(cur);
        assert [""] + cur + rest == [""] + (cur + rest);
        SmoothBlank(fs, [], cur + rest, hops);
        assert cur[..0] == [] && cur[0..] == cur;
        SmoothReal(fs, cur, 0, rest, hops);
      }
    }
  }

  lemma {:induction false} SmoothMissing(fs: FS, cur: Path, parts: seq<string>, hops: nat)
    requires WellFormed(fs) && cur != [] && cur !in fs && !Climbs(parts) && hops <= HOPS
    ensures Smooth(fs, cur, parts, hops)
    decreases |parts|
  {
    if parts != [] {
      assert !Climbs(parts[1..]) && parts[0] != "..";
      if parts[0] == "" || parts[0] == "." {
        SmoothMissing(fs, cur, parts[1..], hops);
      } else {
        assert Parent(cur + [parts[0]]) == cur;
      }
    }
  }

  /** Every pathname the kernel resolves is smooth; the converse fails, as `FileAsDirectory` shows. */
  lemma {:induction false} KernelIsSmooth(fs: FS, cur: Path, parts: seq<string>, hops: nat, fuel: nat)
    requires WellFormed(fs) && RealDir(fs, cur) && PartsOk(parts) && hops + fuel <= HOPS
    requires Kernel(fs, cur, parts, fuel).Landed?
    ensures Smooth(fs, cur, parts, hops)
    decreases fuel, |parts|
  {
    if parts != [] {
      if parts[0] == "" || parts[0] == "." {
        KernelIsSmooth(fs, cur, parts[1..], hops, fuel);
      } else if parts[0] == ".." {
        RealParent(fs, cur);
        KernelIsSmooth(fs, Parent(cur), parts[1..], hops, fuel);
      } else {
        var next := cur + [parts[0]];
        if next in fs {
          match fs[next]
          case Dir =>
            RealChild(fs, cur, parts[0]);
            KernelIsSmooth(fs, next, parts[1..], hops, fuel);
          case File => assert Smooth(fs, next, [], hops);
          case Link(target) => SmoothThroughLink(fs, cur, target, parts, hops, fuel);
        }
      }
    }
  }

  lemma SmoothAtLink(fs: FS, cur: Path, target: string, parts: seq<string>, hops: nat)
    requires AtLink(fs, cur, target, parts) && RealDir(fs, cur) && hops < HOPS
    ensures var base := if Absolute(target) then [] else cur;
            Smooth(fs, cur, parts, hops) <==>
            Smooth(fs, base, Split(target), hops + 1)
              && Smooth(fs, Walk(fs, base, Split(target), hops + 1), parts[1..], hops)
  {
    hide Split, FromLink, RealDir, Walk, Climbs;
    WalkFromLink(fs, cur, target, hops + 1);
    SmoothFromLink(fs, cur, target, hops + 1);
  }

  lemma {:induction false} SmoothThroughLink(fs: FS, cur: Path, target: string, parts: seq<string>, hops: nat,
        fuel: nat)
    requires WellFormed(fs) && RealDir(fs, cur) && PartsOk(parts) && hops + fuel <= HOPS
    requires AtLink(fs, cur, target, parts) && Kernel(fs, cur, parts, fuel).Landed?
    ensures Smooth(fs, cur, parts, hops)
    decreases fuel, |parts|, 0
  {
    var base, rest := if Absolute(target) then [] else cur, parts[1..];
    KernelAtLink(fs, cur, target, parts, fuel);
    SmoothAtLink(fs, cur, target, parts, hops);
    SplitParts(target);
    hide Walk, Smooth, Kernel, Split, Absolute, WellFormed;
    KernelSplit(fs, base, Split(target), rest, fuel - 1);
    var first := Kernel(fs, base, Split(target), fuel - 1);
    WalkAgrees(fs, base, Split(target), hops + 1, fuel - 1);
    KernelIsSmooth(fs, base, Split(target), hops + 1, fuel - 1);
    if first.created {
      CreatedIsMissing(fs, base, Split(target), fuel - 1);
      SmoothMissing(fs, first.at, rest, hops);
    } else if rest != [] {
      KernelIsSmooth(fs, first.at, rest, hops, first.left);
    } else {
      WalkEnd(fs, first.at, hops);
    }
  }

  // ----- walking a landing again -----

  lemma {:induction false} WalkLinkFree(fs: FS, p: Path, done: nat)
    requires LinkFree(fs, p) && done <= |p|
    ensures Walk(fs, p[..done], p[done..], 0) == p
    decreases |p| - done
  {
    if done == |p| {
      assert p[..done] == p;
    } else {
      assert p[done..][0] == p[done] && p[done..][1..] == p[done + 1..];
      assert p[..done] + [p[done]] == p[..done + 1];
      if p[..done + 1] in fs {
        WalkLinkFree(fs, p, done + 1);
      } else {
        JoinClean(p, done + 1);
      }
    }
  }

  lemma {:induction false} JoinClean(p: Path, done: nat)
    requires Clean(p) && done <= |p|
    ensures Join(p[..done], p[done..]) == p
    decreases |p| - done
  {
    if done == |p| {
      assert p[..done] == p;
    } else {
      assert p[done..][0] == p[done] && p[done..][1..] == p[done + 1..];
      assert p[..done] + [p[done]] == p[..done + 1];
      JoinClean(p, done + 1);
    }
  }

  /** Resolving is idempotent, and no existing prefix of what it returns is a link: checking the landing
      against a root judges the place a write would really reach. */
  lemma LandingStable(fs: FS, p: string)
    requires WellFormed(fs) && Smooth(fs, [], Split(p), 0)
    ensures var landing := Walk(fs, [], Split(p), 0);
            LinkFree(fs, landing) && Walk(fs, [], Split(Render(landing)), 0) == landing
  {
    LandingLinkFree(fs, p);
    var landing := Walk(fs, [], Split(p), 0);
    hide Walk, Split, Smooth, Tail;
    if landing == [] {
      SplitRoot();
      SkipBlank(fs, [], [""], 0);
      SkipBlank(fs, [], [], 0);
      assert [""] + [] == [""];
      WalkNothing(fs, []);
    } else {
      SplitTail(landing);
      SkipBlank(fs, [], landing, 0);
      assert landing[..0] == [] && landing[0..] == landing;
      WalkLinkFree(fs, landing, 0);
    }
  }

  lemma WalkNothing(fs: FS, cur: Path)
    ensures Walk(fs, cur, [], 0) == cur
  {
  }

  /** Climbing out of a missing component: the kernel refuses, while the walk joins the rest as text and can
      return a link unresolved. */
  lemma ClimbingPastMissing()
    ensures var fs: FS := map[["l"] := Link("/etc")];
            && WellFormed(fs) && Kernel(fs, [], ["", "m", "..", "l"], HOPS) == Fails
            && !Smooth(fs, [], ["", "m", "..", "l"], 0)
            && Walk(fs, [], ["", "m", "..", "l"], 0) == ["l"] && !LinkFree(fs, ["l"])
  {
    hide Split, FromLink, Render;
    var fs: FS := map[["l"] := Link("/etc")];
    var parts := ["", "m", "..", "l"];
    assert [] + ["m"] == ["m"] && ["m"] !in fs;
    assert parts[1..] == ["m", "..", "l"] && ["m", "..", "l"][1..] == ["..", "l"] && ["..", "l"][1..] == ["l"];
    assert ".." == ["..", "l"][0] && Climbs(["..", "l"]);
    assert Join(["m"], ["..", "l"]) == Join([], ["l"]) == Join(["l"], []);
    assert ["l"][..1] == ["l"];
  }

  /** A file used as a directory: the kernel refuses, while the walk goes on, and still lands on no link. */
  lemma FileAsDirectory()
    ensures var fs: FS := map[["f"] := File];
            && WellFormed(fs) && Kernel(fs, [], ["f", "..", "x"], HOPS) == Fails
            && Smooth(fs, [], ["f", "..", "x"], 0) && Walk(fs, [], ["f", "..", "x"], 0) == ["x"]
  {
    var fs: FS := map[["f"] := File];
    var parts := ["f", "..", "x"];
    assert parts[1..] == ["..", "x"] && ["..", "x"][1..] == ["x"] && ["x"][1..] == [];
    assert [] + ["f"] == ["f"] && [] + ["x"] == ["x"] && Parent(["f"]) == [];
    assert Walk(fs, [], ["x"], 0) == Join(["x"], []) && Smooth(fs, [], ["x"], 0);
    assert Walk(fs, ["f"], ["..", "x"], 0) == Walk(fs, [], ["x"], 0) && Smooth(fs, ["f"], ["..", "x"], 0);
  }

  function Repeat(c: string, n: nat): seq<string> {
    if n == 0 then [] else [c] + Repeat(c, n - 1)
  }

  /** Links one after the other: the kernel counts all of them, the walk only those nested in one another, so it
      resolves any number. */
  lemma {:induction false} LinksInARow(n: nat, fuel: nat)
    ensures var fs: FS := map[["l"] := Link("/")];
            && WellFormed(fs) && (n > fuel ==> Kernel(fs, [], Repeat("l", n), fuel) == Fails)
            && Smooth(fs, [], Repeat("l", n), 0) && Walk(fs, [], Repeat("l", n), 0) == []
  {
    var fs: FS := map[["l"] := Link("/")];
    if n > 0 {
      var parts := Repeat("l", n);
      assert parts[0] == "l" && parts[1..] == Repeat("l", n - 1) && [] + ["l"] == ["l"];
      LinksInARow(n - 1, if fuel > 0 then fuel - 1 else 0);
      SplitRoot();
      assert Split("/") == ["", ""] && ["", ""][1..] == [""] && [""][1..] == [];
      assert Walk(fs, [], [""], 1) == [] && Walk(fs, [], ["", ""], 1) == [];
      assert Smooth(fs, [], [""], 1) && Smooth(fs, [], ["", ""], 1);
      if fuel > 0 {
        TwoBlanks(fs, Repeat("l", n - 1), fuel - 1);
      }
    }
  }

  lemma TwoBlanks(fs: FS, rest: seq<string>, fuel: nat)
    ensures Kernel(fs, [], ["", ""] + rest, fuel) == Kernel(fs, [], rest, fuel)
  {
    assert (["", ""] + rest)[1..] == [""] + rest && ([""] + rest)[1..] == rest;
  }

  /** A location that exists below real directories is found where it is, whatever it is but a link; one that does
      not exist is found to be missing. */
  lemma {:induction false} KernelFinds(fs: FS, cur: Path, parts: Path, fuel: nat)
    requires RealDir(fs, cur) && Clean(parts) && forall k :: 0 < k < |parts| ==> RealDir(fs, cur + parts[..k])
    requires cur + parts in fs ==> !fs[cur + parts].Link?
    ensures Kernel(fs, cur, parts, fuel) == Landed(cur + parts, fuel, parts != [] && cur + parts !in fs)
    decreases |parts|
  {
    if parts == [] {
      assert cur + parts == cur;
    } else {
      var next, rest := cur + [parts[0]], parts[1..];
      assert next + rest == cur + parts && parts[0] in parts;
      if rest == [] {
        assert cur + parts == next && Join(next, rest) == next && !Climbs(rest);
        assert next in fs && fs[next].Dir? ==> Kernel(fs, next, rest, fuel) == Landed(next, fuel, false);
      } else {
        assert parts[..1] == [parts[0]];
        forall k | 0 < k < |rest|
          ensures RealDir(fs, next + rest[..k])
        {
          assert next + rest[..k] == cur + parts[..k + 1];
        }
        assert next[..|next|] == next && next in fs && fs[next].Dir?;
        KernelFinds(fs, next, rest, fuel);
      }
    }
  }

  const LOOP: FS := map[["l"] := Link("l/x")]

  lemma LoopText()
    ensures Split("l/x") == ["l", "x"] && !Absolute("l/x")
  {
    assert "l/x"[1..] == "/x" && "/x"[1..] == "x" && "x"[1..] == "";
    assert Split("x") == [['x'] + ""] + [] && ['x'] + "" == "x";
    assert Split("/x") == [""] + ["x"] && Split("l/x") == [['l'] + ""] + ["x"] && ['l'] + "" == "l";
  }

  lemma {:induction false} LoopWalk(hops: nat)
    requires hops <= HOPS
    ensures Walk(LOOP, [], ["l", "x"], hops) == ["l"] + Repeat("x", HOPS - hops)
    decreases HOPS - hops
  {
    hide Split, FromLink;
    assert ["l", "x"][1..] == ["x"] && ["x"][1..] == [] && [] + ["l"] == ["l"];
    if hops == HOPS {
      assert ["l"] + Repeat("x", 0) == ["l"];
    } else {
      LoopText();
      WalkAtLink(LOOP, [], "l/x", ["l", "x"], hops);
      LoopWalk(hops + 1);
      RepeatMore("x", HOPS - hops - 1);
      assert ["l"] + Repeat("x", HOPS - hops - 1) + ["x"] == ["l"] + Repeat("x", HOPS - hops);
    }
  }

  lemma {:induction false} RepeatMore(c: string, n: nat)
    ensures Repeat(c, n + 1) == Repeat(c, n) + [c] && |Repeat(c, n)| == n
  {
    if n > 0 {
      RepeatMore(c, n - 1);
    }
  }

  lemma {:induction false} LoopKernel(rest: seq<string>, fuel: nat)
    ensures Kernel(LOOP, [], ["l"] + rest, fuel) == Fails
    decreases fuel
  {
    hide Split;
    var parts := ["l"] + rest;
    assert parts[0] == "l" && parts[1..] == rest && [] + ["l"] == ["l"];
    if fuel > 0 {
      LoopText();
      assert ["l", "x"] + rest == ["l"] + (["x"] + rest);
      LoopKernel(["x"] + rest, fuel - 1);
    }
  }

  /** A link whose text goes through itself: the kernel refuses. At the limit the walk returns the link itself and
      drops the rest of that text, while each of the 40 walks around it goes on with its own: the landing has 40 of
      them below the link. */
  lemma LinkLoop()
    ensures WellFormed(LOOP) && Kernel(LOOP, [], ["l", "x"], HOPS) == Fails && !Smooth(LOOP, [], ["l", "x"], 0)
    ensures Walk(LOOP, [], ["l", "x"], HOPS) == ["l"]
    ensures Walk(LOOP, [], ["l", "x"], 0) == ["l"] + Repeat("x", HOPS) && !LinkFree(LOOP, ["l"] + Repeat("x", HOPS))
  {
    hide Walk, Smooth, Kernel, Split;
    LoopWalk(HOPS);
    LoopWalk(0);
    assert ["l"] + ["x"] == ["l", "x"] && ["l"] + Repeat("x", 0) == ["l"];
    LoopKernel(["x"], HOPS);
    assert (["l"] + Repeat("x", HOPS))[..1] == ["l"];
    assert !LinkFree(LOOP, ["l"] + Repeat("x", HOPS));
    if Smooth(LOOP, [], ["l", "x"], 0) {
      WalkStaysLinkFree(LOOP, [], ["l", "x"], 0);
    }
  }

  // ----- containment -----

  /** `realpath` may throw (none); then the path is judged as it is. */
  function SafeReal(p: Path, realpath: Path -> Option<Path>): Path {
    match realpath(p) case Some(r) => r case None => p
  }

  datatype Option<+T> = None | Some(value: T)

  /** `realPath === realRoot || realPath.startsWith(realRoot + sep)`, on the rendered strings. */
  function IsPathContained(p: Path, root: Path, realpath: Path -> Option<Path>): bool {
    var at, rootAt := SafeReal(p, realpath), SafeReal(root, realpath);
    at == rootAt || Render(rootAt) + "/" <= Render(at)
  }

  lemma {:induction false} TailConcat(a: Path, b: Path)
    ensures Tail(a + b) == Tail(a) + Tail(b)
    decreases |b|
  {
    if b == [] {
      assert a + b == a;
    } else {
      assert (a + b)[..|a + b| - 1] == a + b[..|b| - 1];
      TailConcat(a, b[..|b| - 1]);
    }
  }

  lemma {:induction false} TailStart(b: Path)
    requires b != []
    ensures Tail(b) != "" && Tail(b)[0] == '/'
    decreases |b|
  {
    if |b| > 1 {
      TailStart(b[..|b| - 1]);
    }
  }

  lemma PrefixSlash(a: string, t: string)
    requires t != "" && t[0] == '/'
    ensures a + "/" <= a + t
  {
    assert (a + t)[..|a|] == a && (a + t)[|a|] == '/';
  }

  lemma DropFirst<T>(x: T, a: seq<T>, b: seq<T>, c: seq<T>)
    requires [x] + a == ([x] + b) + c
    ensures a == b + c
  {
    assert ([x] + a)[1..] == a && (([x] + b) + c)[1..] == b + c;
  }

  lemma NestedIsPrefix(root: Path, c: Path)
    requires root != [] && c != []
    ensures Tail(root) + "/" <= Tail(root + c)
  {
    TailConcat(root, c);
    TailStart(c);
    hide Tail;
    PrefixSlash(Tail(root), Tail(c));
  }

  lemma PrefixIsNested(root: Path, p: Path, rest: string)
    requires Clean(root) && Clean(p) && Tail(p) == Tail(root) + "/" + rest
    ensures p == root + Split(rest)
  {
    hide Split, Tail;
    SplitConcat(Tail(root), rest);
    SplitTail(root);
    SplitTail(p);
    DropFirst("", p, root, Split(rest));
  }

  /** The string test is the component test: no sibling such as `/root-x` slips past it. The file-system root is
      the exception: no location's text starts with two slashes, so the test finds nothing below it. */
  lemma PrefixIsNesting(root: Path, p: Path)
    requires Clean(root) && Clean(p)
    ensures Render(root) + "/" <= Render(p) <==> root != [] && root < p
  {
    if root == [] {
      OneSlash(p);
    } else if root < p {
      assert p == root + p[|root|..];
      hide Tail;
      NestedIsPrefix(root, p[|root|..]);
    } else if Render(root) + "/" <= Render(p) {
      TailStart(root);
      hide Tail;
      if p != [] {
        PrefixRest(Tail(root), Tail(p));
        PrefixIsNested(root, p, Tail(p)[|Tail(root)| + 1..]);
      }
    }
  }

  lemma OneSlash(p: Path)
    requires Clean(p)
    ensures !("/" + "/" <= Render(p))
  {
    if p != [] {
      assert p == [p[0]] + p[1..];
      TailConcat([p[0]], p[1..]);
      assert Tail([p[0]]) == "/" + p[0];
      assert p[0][0] in p[0];
      assert Render(p)[1] == p[0][0] != '/';
    }
  }

  lemma PrefixRest(a: string, t: string)
    requires a + "/" <= t
    ensures |a| + 1 <= |t| && t == a + "/" + t[|a| + 1..]
  {
  }

  /** `realpath` leaves link-free locations alone or throws on them. */
  ghost predicate TrueToLinks(fs: FS, realpath: Path -> Option<Path>) {
    forall q :: LinkFree(fs, q) ==> realpath(q) == None || realpath(q) == Some(q)
  }

  /** Judging a landing decides exactly whether it is the root or lies below it; below the file-system root it
      finds nothing. */
  lemma LandingContained(fs: FS, p: string, root: Path, realpath: Path -> Option<Path>)
    requires WellFormed(fs) && Smooth(fs, [], Split(p), 0) && LinkFree(fs, root) && TrueToLinks(fs, realpath)
    ensures var landing := Walk(fs, [], Split(p), 0);
            IsPathContained(landing, root, realpath) <==> landing == root || (root != [] && root < landing)
  {
    LandingLinkFree(fs, p);
    var landing := Walk(fs, [], Split(p), 0);
    hide Walk, Smooth, Split, Render;
    PrefixIsNesting(root, landing);
  }

  /** So it decides whether the place the kernel reaches is at or under the root. */
  lemma KernelContained(fs: FS, p: string, root: Path, realpath: Path -> Option<Path>)
    requires WellFormed(fs) && Kernel(fs, [], Split(p), HOPS).Landed? && LinkFree(fs, root) && TrueToLinks(fs, realpath)
    ensures var at := Kernel(fs, [], Split(p), HOPS).at;
            IsPathContained(Walk(fs, [], Split(p), 0), root, realpath) <==> at == root || (root != [] && root < at)
  {
    LandingIsKernels(fs, p);
    SplitParts(p);
    KernelIsSmooth(fs, [], Split(p), 0, HOPS);
    hide Walk, Smooth, Kernel, Split, IsPathContained;
    LandingContained(fs, p, root, realpath);
  }
}

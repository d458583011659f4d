/** Lexical path handling as the Go library does it for '/'-separated paths:
    `path.Clean`, `path.Join` (and `filepath.Join` on a '/'-separated system),
    `strings.HasPrefix` and `strings.Trim`. The request pipelines of every
    backend are built from these. */
module GoPath {

  /** Splits a string at every '/', keeping empty pieces (Go's `strings.Split(s, "/")`). */
  function Split(s: string): (r: seq<string>)
    ensures |r| >= 1
    decreases |s|
  {
    if s == [] then [[]]
    else
      var rest := Split(s[1..]);
      if s[0] == '/' then [[]] + rest
      else [[s[0]] + rest[0]] + rest[1..]
  }

  /** Glues segments with '/' between them (Go's `strings.Join(segs, "/")`). */
  function JoinSegs(segs: seq<string>): string
    decreases |segs|
  {
    if segs == [] then []
    else if |segs| == 1 then segs[0]
    else segs[0] + "/" + JoinSegs(segs[1..])
  }

  /** A segment that names an entry: not empty, not "." and not "..". */
  predicate IsName(seg: string)
  {
    seg != "" && seg != "." && seg != ".."
  }

  /** One step of `path.Clean` over the output stack: empty and "." segments
      vanish, ".." removes the last kept name, or at the start of a rooted path
      vanishes, or at the start of a relative path is kept. */
  function Step(stack: seq<string>, seg: string, rooted: bool): seq<string>
  {
    if seg == "" || seg == "." then stack
    else if seg == ".." then
      if |stack| > 0 && stack[|stack| - 1] != ".." then stack[..|stack| - 1]
      else if rooted then stack
      else stack + [".."]
    else stack + [seg]
  }

  /** Left fold of `Step` over the segments. */
  function Reduce(segs: seq<string>, stack: seq<string>, rooted: bool): seq<string>
    decreases |segs|
  {
    if segs == [] then stack
    else Reduce(segs[1..], Step(stack, segs[0], rooted), rooted)
  }

  /** `path.Clean`: the shortest lexically equivalent path. An empty result is ".",
      a rooted path stays rooted and a leading "/.." becomes "/". */
  function Clean(p: string): (r: string)
    ensures r != ""
    ensures r[0] == '/' <==> (p != "" && p[0] == '/')
  {
    if p == "" then "."
    else
      var rooted := p[0] == '/';
      var stack := Reduce(Split(p), [], rooted);
      if rooted then "/" + JoinSegs(stack)
      else if stack == [] then "."
      else
        SplitPieces(p);
        ReduceCanonical(Split(p), [], false);
        JoinSegsNonEmpty(stack);
        JoinSegs(stack)
  }

  /** `path.Join(a, b)`: the non-empty elements joined by '/' and cleaned; "" when both are empty. */
  function Join(a: string, b: string): (r: string)
    ensures r == "" <==> a == "" && b == ""
    ensures r != "" ==> Clean(r) == r
    ensures a != "" ==> (r[0] == '/' <==> a[0] == '/')
    ensures a == "" && b != "" ==> (r[0] == '/' <==> b[0] == '/')
  {
    if a != "" then
      CleanIdempotent(a + "/" + b);
      Clean(a + "/" + b)
    else if b != "" then
      CleanIdempotent(b);
      Clean(b)
    else ""
  }

  /** `strings.HasPrefix`: `s` is `prefix` followed by anything. */
  predicate HasPrefix(s: string, prefix: string)
    ensures HasPrefix(s, prefix) <==> exists rest :: s == prefix + rest
  {
    assert |prefix| <= |s| ==> s == s[..|prefix|] + s[|prefix|..];
    |prefix| <= |s| && s[..|prefix|] == prefix
  }

  /** Number of leading characters of `s` that are in `cutset`. */
  function LeadingCut(s: string, cutset: set<char>): (k: nat)
    ensures k <= |s|
    ensures forall i :: 0 <= i < k ==> s[i] in cutset
    ensures k < |s| ==> s[k] !in cutset
    decreases |s|
  {
    if s != [] && s[0] in cutset then 1 + LeadingCut(s[1..], cutset) else 0
  }

  /** Number of trailing characters of `s` that are in `cutset`. */
  function TrailingCut(s: string, cutset: set<char>): (k: nat)
    ensures k <= |s|
    ensures forall i :: |s| - k <= i < |s| ==> s[i] in cutset
    ensures k < |s| ==> s[|s| - 1 - k] !in cutset
    decreases |s|
  {
    if s != [] && s[|s| - 1] in cutset then 1 + TrailingCut(s[..|s| - 1], cutset) else 0
  }

  /** `strings.Trim(s, cutset)`: drops leading and trailing characters of the cut set. */
  function Trim(s: string, cutset: set<char>): (r: string)
    ensures r != [] ==> r[0] !in cutset && r[|r| - 1] !in cutset
    ensures var k := LeadingCut(s, cutset);
      && k + |r| <= |s| && r == s[k..k + |r|]
      && (forall i :: 0 <= i < |s| && (i < k || k + |r| <= i) ==> s[i] in cutset)
  {
    var front := s[LeadingCut(s, cutset)..];
    front[..|front| - TrailingCut(front, cutset)]
  }

  // ---------------------------------------------------------------------------
  // Splitting and joining

  /** No piece of a split contains '/'. */
  lemma {:induction false} SplitPieces(s: string)
    ensures forall i :: 0 <= i < |Split(s)| ==> '/' !in Split(s)[i]
    decreases |s|
  {
    if s != [] {
      SplitPieces(s[1..]);
    }
  }

  lemma {:induction false} SplitNoSlash(s: string)
    requires '/' !in s
    ensures Split(s) == [s]
    decreases |s|
  {
    if s != [] {
      SplitNoSlash(s[1..]);
      assert [s[0]] + s[1..] == s;
    }
  }

  /** Splitting a string that starts with `c`: a '/' opens a new empty piece, any other
      character joins the first piece of the rest. */
  lemma SplitCons(c: char, t: string)
    ensures var rest := Split(t);
      Split([c] + t) == if c == '/' then [[]] + rest else [[c] + rest[0]] + rest[1..]
  {
    assert ([c] + t)[0] == c && ([c] + t)[1..] == t;
  }

  /** The list algebra behind `SplitConcat`: putting a character in front of a split and then
      appending more pieces is the same as appending first. */
  lemma ConsPiecesAppend(c: char, ra: seq<string>, sb: seq<string>)
    requires |ra| >= 1
    ensures (if c == '/' then [[]] + (ra + sb) else [[c] + (ra + sb)[0]] + (ra + sb)[1..])
         == (if c == '/' then [[]] + ra else [[c] + ra[0]] + ra[1..]) + sb
  {
    if c == '/' {
      assert [[]] + (ra + sb) == ([[]] + ra) + sb;
    } else {
      var x := [c] + ra[0];
      assert (ra + sb)[0] == ra[0];
      assert (ra + sb)[1..] == ra[1..] + sb;
      assert [x] + (ra[1..] + sb) == ([x] + ra[1..]) + sb;
    }
  }

  /** Splitting distributes over a '/' placed between two strings. */
  lemma {:induction false} SplitConcat(a: string, b: string)
    ensures Split(a + "/" + b) == Split(a) + Split(b)
    decreases |a|
  {
    if a == [] {
      assert a + "/" + b == ['/'] + b;
      SplitCons('/', b);
    } else {
      var t := a[1..] + "/" + b;
      SplitConcat(a[1..], b);
      assert Split(a + "/" + b) == Split([a[0]] + t) by {
        assert a + "/" + b == [a[0]] + t;
      }
      assert Split(a) == Split([a[0]] + a[1..]) by {
        assert a == [a[0]] + a[1..];
      }
      SplitCons(a[0], t);
      SplitCons(a[0], a[1..]);
      ConsPiecesAppend(a[0], Split(a[1..]), Split(b));
    }
  }

  /** Joining pieces that contain no '/' and splitting again gives the pieces back. */
  lemma {:induction false} SplitJoinSegs(segs: seq<string>)
    requires |segs| >= 1
    requires forall i :: 0 <= i < |segs| ==> '/' !in segs[i]
    ensures Split(JoinSegs(segs)) == segs
    decreases |segs|
  {
    if |segs| == 1 {
      SplitNoSlash(segs[0]);
    } else {
      SplitJoinSegs(segs[1..]);
      SplitConcat(segs[0], JoinSegs(segs[1..]));
      SplitNoSlash(segs[0]);
      assert [segs[0]] + segs[1..] == segs;
    }
  }

  lemma {:induction false} JoinSegsAppend(a: seq<string>, b: seq<string>)
    requires |a| >= 1 && |b| >= 1
    ensures JoinSegs(a + b) == JoinSegs(a) + "/" + JoinSegs(b)
    decreases |a|
  {
    if |a| == 1 {
      assert (a + b)[1..] == b;
    } else {
      assert (a + b)[1..] == a[1..] + b;
      JoinSegsAppend(a[1..], b);
    }
  }

  /** Two segments joined with '/'. */
  lemma JoinTwo(a: string, b: string)
    ensures JoinSegs([a, b]) == a + "/" + b
  {
    assert [a, b][1..] == [b];
  }

  /** Three segments joined with '/'. */
  lemma JoinThree(a: string, b: string, c: string)
    ensures JoinSegs([a, b, c]) == a + "/" + b + "/" + c
  {
    assert [a, b, c][1..] == [b, c];
    JoinTwo(b, c);
  }

  /** A joined sequence of names is empty only when there are no names. */
  lemma {:induction false} JoinSegsNonEmpty(segs: seq<string>)
    requires |segs| >= 1 && segs[0] != ""
    ensures JoinSegs(segs) != [] && JoinSegs(segs)[0] == segs[0][0]
  {
    if |segs| > 1 {
      assert JoinSegs(segs) == segs[0] + ("/" + JoinSegs(segs[1..]));
    }
  }

  // ---------------------------------------------------------------------------
  // The Clean fold

  lemma {:induction false} ReduceAppend(a: seq<string>, b: seq<string>, stack: seq<string>, rooted: bool)
    ensures Reduce(a + b, stack, rooted) == Reduce(b, Reduce(a, stack, rooted), rooted)
    decreases |a|
  {
    if a != [] {
      assert a + b != [];
      assert (a + b)[0] == a[0];
      assert (a + b)[1..] == a[1..] + b;
      ReduceAppend(a[1..], b, Step(stack, a[0], rooted), rooted);
    } else {
      assert a + b == b;
    }
  }

  /** The shape of every stack that Clean builds: names, possibly preceded (only in a
      relative path) by a run of "..", and never a '/' inside a segment. */
  predicate Canonical(stack: seq<string>, rooted: bool)
  {
    && (forall i :: 0 <= i < |stack| ==> '/' !in stack[i] && (IsName(stack[i]) || (!rooted && stack[i] == "..")))
    && (forall i, j :: 0 <= i < j < |stack| && stack[j] == ".." ==> stack[i] == "..")
  }

  lemma {:induction false} ReduceCanonical(segs: seq<string>, stack: seq<string>, rooted: bool)
    requires Canonical(stack, rooted)
    requires forall i :: 0 <= i < |segs| ==> '/' !in segs[i]
    ensures Canonical(Reduce(segs, stack, rooted), rooted)
    decreases |segs|
  {
    if segs != [] {
      var next := Step(stack, segs[0], rooted);
      assert Canonical(next, rooted);
      ReduceCanonical(segs[1..], next, rooted);
    }
  }

  /** Folding a canonical stack that is already in place onto the stack keeps every segment. */
  lemma {:induction false} ReduceKeepsCanonical(segs: seq<string>, stack: seq<string>, rooted: bool)
    requires Canonical(stack + segs, rooted)
    ensures Reduce(segs, stack, rooted) == stack + segs
    decreases |segs|
  {
    if segs != [] {
      var all := stack + segs;
      assert all[|stack|] == segs[0];
      if segs[0] == ".." {
        forall i | 0 <= i < |stack|
          ensures stack[i] == ".."
        {
          assert all[i] == stack[i] && all[|stack|] == "..";
        }
      }
      assert Step(stack, segs[0], rooted) == stack + [segs[0]];
      assert (stack + [segs[0]]) + segs[1..] == all;
      ReduceKeepsCanonical(segs[1..], stack + [segs[0]], rooted);
    }
  }

  /** The names of `segs`: what Clean keeps of a path with no ".." in it. */
  function Names(segs: seq<string>): seq<string>
    decreases |segs|
  {
    if segs == [] then []
    else if segs[0] == "" || segs[0] == "." then Names(segs[1..])
    else [segs[0]] + Names(segs[1..])
  }

  /** Without "..", Clean only drops empty and "." segments and never pops. */
  lemma {:induction false} ReduceWithoutDotDot(segs: seq<string>, stack: seq<string>, rooted: bool)
    requires ".." !in segs
    ensures Reduce(segs, stack, rooted) == stack + Names(segs)
    decreases |segs|
  {
    if segs != [] {
      assert segs[0] != "..";
      assert ".." !in segs[1..];
      var next := Step(stack, segs[0], rooted);
      ReduceWithoutDotDot(segs[1..], next, rooted);
      if segs[0] == "" || segs[0] == "." {
        assert next == stack && Names(segs) == Names(segs[1..]);
      } else {
        assert next == stack + [segs[0]] && Names(segs) == [segs[0]] + Names(segs[1..]);
        assert (stack + [segs[0]]) + Names(segs[1..]) == stack + ([segs[0]] + Names(segs[1..]));
      }
    }
  }

  // ---------------------------------------------------------------------------
  // Properties of Clean and Join

  /** A rooted path that is its own Clean: "/" or "/" followed by names joined by '/'. */
  predicate IsCleanAbs(p: string)
  {
    p != "" && p[0] == '/' && Clean(p) == p
  }

  /** The segments of a rooted path after cleaning. */
  function RootedStack(p: string): seq<string>
    requires p != "" && p[0] == '/'
  {
    Reduce(Split(p), [], true)
  }

  /** Clean builds its result from a canonical stack. */
  lemma CleanShape(p: string)
    ensures p != "" ==> Canonical(Reduce(Split(p), [], p[0] == '/'), p[0] == '/')
  {
    if p != "" {
      SplitPieces(p);
      ReduceCanonical(Split(p), [], p[0] == '/');
    }
  }

  /** A relative path built from a non-empty canonical stack is its own Clean. */
  lemma {:induction false} CleanRelativeOfStack(stack: seq<string>)
    requires stack != [] && Canonical(stack, false)
    ensures Clean(JoinSegs(stack)) == JoinSegs(stack)
  {
    JoinSegsNonEmpty(stack);
    SplitJoinSegs(stack);
    ReduceKeepsCanonical(stack, [], false);
    assert [] + stack == stack;
  }

  /** `path.Clean` is idempotent. */
  lemma {:induction false} CleanIdempotent(p: string)
    ensures Clean(Clean(p)) == Clean(p)
  {
    CleanShape(p);
    if p == "" {
      SplitNoSlash(".");
    } else {
      var rooted := p[0] == '/';
      var stack := Reduce(Split(p), [], rooted);
      if rooted {
        CleanAbsOfNames(stack);
      } else if stack == [] {
        SplitNoSlash(".");
      } else {
        CleanRelativeOfStack(stack);
      }
    }
  }

  /** A clean rooted path is "/" followed by its names. */
  lemma CleanAbsSegments(root: string)
    requires IsCleanAbs(root)
    ensures var st := RootedStack(root);
      && Canonical(st, true)
      && root == "/" + JoinSegs(st)
      && Split(root) == if st == [] then ["", ""] else [""] + st
  {
    CleanShape(root);
    var st := RootedStack(root);
    SplitConcat("", JoinSegs(st));
    assert root == "" + "/" + JoinSegs(st);
    if st != [] {
      SplitJoinSegs(st);
    }
  }

  /** The stack Clean builds for `root + "/" + target`: the root's names, then the
      target's names. */
  lemma {:induction false} JoinStackWithoutDotDot(root: string, target: string)
    requires IsCleanAbs(root)
    requires ".." !in Split(target)
    ensures Reduce(Split(root + "/" + target), [], true) == RootedStack(root) + Names(Split(target))
  {
    CleanAbsSegments(root);
    var st := RootedStack(root);
    SplitConcat(root, target);
    var head := if st == [] then ["", ""] else [""] + st;
    ReduceAppend(head, Split(target), [], true);
    ReduceKeepsCanonical(st, [], true);
    assert [] + st == st;
    if st == [] {
      assert Reduce(head, [], true) == [];
    } else {
      ReduceAppend([""], st, [], true);
      assert Reduce(head, [], true) == st;
    }
    ReduceWithoutDotDot(Split(target), st, true);
  }

  /** `root + "/" + target`, cleaned, is the root's names followed by the target's names. */
  lemma {:induction false} JoinRootedWithoutDotDot(root: string, target: string)
    requires IsCleanAbs(root)
    requires ".." !in Split(target)
    ensures Join(root, target) == "/" + JoinSegs(RootedStack(root) + Names(Split(target)))
  {
    JoinStackWithoutDotDot(root, target);
    assert (root + "/" + target)[0] == '/';
  }

  /** Joining more names onto a stack extends its rooted form after a separating '/'. */
  lemma {:induction false} RootedJoinExtends(st: seq<string>, names: seq<string>)
    ensures var p := "/" + JoinSegs(st + names);
      var q := "/" + JoinSegs(st);
      HasPrefix(p, q) && (p == q || HasPrefix(p, if st == [] then q else q + "/"))
  {
    var p := "/" + JoinSegs(st + names);
    var q := "/" + JoinSegs(st);
    if names == [] {
      assert st + names == st;
    } else if st == [] {
      assert st + names == names;
      assert JoinSegs(st) == "";
      assert p[..1] == "/";
    } else {
      JoinSegsAppend(st, names);
      assert p == (q + "/") + JoinSegs(names);
      assert p[..|q + "/"|] == q + "/";
      assert p[..|q|] == q;
    }
  }

  /** Joining a target that has no ".." segment onto a clean rooted root stays inside
      the root directory: the result is the root itself or the root followed by '/'. */
  lemma {:induction false} JoinWithoutDotDotStaysInside(root: string, target: string)
    requires IsCleanAbs(root)
    requires ".." !in Split(target)
    ensures var p := Join(root, target);
      HasPrefix(p, root) && (p == root || HasPrefix(p, if root == "/" then root else root + "/"))
  {
    CleanAbsSegments(root);
    JoinRootedWithoutDotDot(root, target);
    var st := RootedStack(root);
    RootedJoinExtends(st, Names(Split(target)));
    if st != [] {
      assert IsName(st[0]);
      JoinSegsNonEmpty(st);
    }
  }

  /** A rooted path built from names is clean, and its names are what Clean keeps of it. */
  lemma CleanAbsOfNames(names: seq<string>)
    requires Canonical(names, true)
    ensures IsCleanAbs("/" + JoinSegs(names)) && RootedStack("/" + JoinSegs(names)) == names
  {
    var p := "/" + JoinSegs(names);
    assert p == "" + "/" + JoinSegs(names);
    SplitConcat("", JoinSegs(names));
    ReduceKeepsCanonical(names, [], true);
    assert [] + names == names;
    if names == [] {
      assert Split(p) == ["", ""];
      assert Reduce(["", ""], [], true) == Reduce([""], [], true) == [];
    } else {
      SplitJoinSegs(names);
      ReduceAppend([""], names, [], true);
    }
  }

  /** Clean of a rooted path, read off its segments. */
  lemma CleanRootedBySegments(p: string, segs: seq<string>)
    requires p != "" && p[0] == '/' && Split(p) == segs
    ensures Clean(p) == "/" + JoinSegs(Reduce(segs, [], true))
  {
  }

  /** A target with no names and no ".." ("" or "/" among them) joins to the root itself. */
  lemma JoinWithoutNamesIsRoot(root: string, target: string)
    requires IsCleanAbs(root)
    requires ".." !in Split(target) && Names(Split(target)) == []
    ensures Join(root, target) == root
  {
    CleanAbsSegments(root);
    JoinStackWithoutDotDot(root, target);
    assert RootedStack(root) + [] == RootedStack(root);
    assert (root + "/" + target)[0] == '/';
  }

  /** A relative path that is its own Clean, names only: what an `fs.FS` sub-directory looks like. */
  predicate IsCleanRelative(p: string)
  {
    p != "" && p[0] != '/' && p != "." && Clean(p) == p && ".." !in Split(p)
  }

  /** A clean relative directory is its own non-empty canonical stack, joined with '/'. */
  lemma {:induction false} CleanRelativeSegments(dir: string)
    requires IsCleanRelative(dir)
    ensures var sd := Reduce(Split(dir), [], false);
      sd != [] && Canonical(sd, false) && dir == JoinSegs(sd) && Split(dir) == sd
  {
    CleanShape(dir);
    var sd := Reduce(Split(dir), [], false);
    assert sd != [] && dir == JoinSegs(sd);
    SplitJoinSegs(sd);
  }

  /** `dir + "/" + target`, cleaned, is the directory's names followed by the target's names. */
  lemma {:induction false} JoinRelativeStack(dir: string, target: string)
    requires IsCleanRelative(dir)
    requires ".." !in Split(target)
    ensures var sd := Reduce(Split(dir), [], false);
      Join(dir, target) == JoinSegs(sd + Names(Split(target)))
  {
    CleanRelativeSegments(dir);
    var sd := Reduce(Split(dir), [], false);
    var names := Names(Split(target));
    assert Reduce(Split(dir + "/" + target), [], false) == sd + names by {
      SplitConcat(dir, target);
      ReduceAppend(sd, Split(target), [], false);
      ReduceKeepsCanonical(sd, [], false);
      assert [] + sd == sd;
      ReduceWithoutDotDot(Split(target), sd, false);
    }
    assert (dir + "/" + target)[0] == dir[0];
    if names == [] {
      assert sd + names == sd;
    } else {
      assert (sd + names)[0] == sd[0];
      assert IsName(sd[0]);
      JoinSegsNonEmpty(sd + names);
    }
  }

  /** Joining more names onto a non-empty stack extends its joined form after a separating '/'. */
  lemma {:induction false} RelativeJoinExtends(sd: seq<string>, names: seq<string>)
    requires sd != []
    ensures var p := JoinSegs(sd + names);
      var q := JoinSegs(sd);
      HasPrefix(p, q) && (p == q || HasPrefix(p, q + "/"))
  {
    var p := JoinSegs(sd + names);
    var q := JoinSegs(sd);
    if names == [] {
      assert sd + names == sd;
    } else {
      JoinSegsAppend(sd, names);
      assert p == (q + "/") + JoinSegs(names);
      assert p[..|q + "/"|] == q + "/";
      assert p[..|q|] == q;
    }
  }

  /** Joining a target with no ".." segment onto a clean relative directory stays inside it. */
  lemma {:induction false} JoinRelativeWithoutDotDotStaysInside(dir: string, target: string)
    requires IsCleanRelative(dir)
    requires ".." !in Split(target)
    ensures var p := Join(dir, target);
      HasPrefix(p, dir) && (p == dir || HasPrefix(p, dir + "/"))
  {
    CleanRelativeSegments(dir);
    JoinRelativeStack(dir, target);
    RelativeJoinExtends(Reduce(Split(dir), [], false), Names(Split(target)));
  }

  /** Joining onto "." drops the "." entirely: a plain name comes back without any "." in front. */
  lemma JoinOntoDotDropsDot(target: string)
    requires target != "" && target[0] != '.' && target[0] != '/'
    requires ".." !in Split(target)
    ensures Join(".", target) != "" && Join(".", target)[0] == target[0]
  {
    SplitConcat(".", target);
    SplitNoSlash(".");
    ReduceAppend(["."], Split(target), [], false);
    assert Reduce(["."], [], false) == [];
    ReduceWithoutDotDot(Split(target), [], false);
    var segs := Split(target);
    assert segs[0] != "" && segs[0][0] == target[0] && segs[0] != ".";
    var names := Names(segs);
    assert names == [segs[0]] + Names(segs[1..]);
    assert [] + names == names;
    JoinSegsNonEmpty(names);
    assert ("." + "/" + target)[0] == '.';
  }
}

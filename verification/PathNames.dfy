/**
 Names of files as the standard library of the program sees them: two spellings are the same path when
 they have the same components, and the lock of a path is a file beside it, named after it.
 */
module PathNames {

  type Path = string

  // ---------------------------------------------------------------- components

  /** What lies between the separators, empty stretches included. */
  function Segments(p: Path): (s: seq<Path>)
    ensures s != []
  {
    if p == "" then [""]
    else
      var rest, c := Segments(p[..|p| - 1]), p[|p| - 1];
      if c == '/' then rest + [""] else rest[..|rest| - 1] + [rest[|rest| - 1] + [c]]
  }

  /** Empty segments and those that stay where they are do not count. */
  function Kept(s: seq<Path>): seq<Path> {
    if s == [] then []
    else
      var last := s[|s| - 1];
      Kept(s[..|s| - 1]) + if last == "" || last == "." then [] else [last]
  }

  /** A leading separator is the root; a leading dot is kept. */
  function Lead(p: Path): seq<Path> {
    if p == "" then [] else if p[0] == '/' then ["/"] else if Segments(p)[0] == "." then ["."] else []
  }

  /** Equal for two spellings exactly when the program takes them for one path. */
  function Components(p: Path): seq<Path> {
    Lead(p) + Kept(Segments(p))
  }

  /** A path as collections see it. */
  datatype PathId = PathId(components: seq<Path>)

  function Identity(p: Path): PathId {
    PathId(Components(p))
  }

  // ---------------------------------------------------------------- the last component

  /** Without separators at the end, and without dots that stand for nothing. */
  function Trimmed(p: Path): Path {
    var n := |p|;
    if n > 0 && p[n - 1] == '/' then Trimmed(p[..n - 1])
    else if n > 1 && p[n - 1] == '.' && p[n - 2] == '/' then Trimmed(p[..n - 1])
    else p
  }

  /** Where the text after the last separator begins. */
  function NameStart(p: Path): (n: nat)
    ensures n <= |p| && (n == 0 || p[n - 1] == '/')
    ensures '/' !in p[n..]
  {
    if p == "" || p[|p| - 1] == '/' then |p| else NameStart(p[..|p| - 1])
  }

  function Directory(p: Path): Path {
    var t := Trimmed(p);
    t[..NameStart(t)]
  }

  function Name(p: Path): Path {
    var t := Trimmed(p);
    t[NameStart(t)..]
  }

  predicate IsName(name: Path) {
    name != "" && name != "." && name != ".."
  }

  /** Neither empty nor the root, and not ending in a step upwards. */
  predicate HasName(p: Path) {
    IsName(Name(p))
  }

  /** Where the last dot is, if there is one after the first character. */
  function LastDot(name: Path): (d: nat)
    ensures d == 0 || (d < |name| && name[d] == '.')
  {
    if |name| <= 1 then 0 else if name[|name| - 1] == '.' then |name| - 1 else LastDot(name[..|name| - 1])
  }

  predicate HasExtension(name: Path) {
    LastDot(name) > 0
  }

  function Stem(name: Path): Path {
    if HasExtension(name) then name[..LastDot(name)] else name
  }

  function Extension(name: Path): Path
    requires HasExtension(name)
  {
    name[LastDot(name) + 1..]
  }

  /** A path without a name keeps its spelling. */
  function WithExtension(p: Path, extension: Path): Path {
    if !HasName(p) then p
    else Directory(p) + Stem(Name(p)) + if extension == "" then "" else "." + extension
  }

  /** The file that is locked in place of `p`. */
  function LockFile(p: Path): Path {
    WithExtension(p, (if HasName(p) && HasExtension(Name(p)) then Extension(Name(p)) else "tmp") + ".lock")
  }

  /** A name that has an extension, if need be by giving it one. */
  function Suffixed(name: Path): Path {
    if HasExtension(name) then name else name + ".tmp"
  }

  // ---------------------------------------------------------------- names and components

  function Extend(s: seq<Path>, c: char): seq<Path>
    requires s != []
  {
    if c == '/' then s + [""] else s[..|s| - 1] + [s[|s| - 1] + [c]]
  }

  lemma SegmentsNext(p: Path, c: char)
    ensures Segments(p + [c]) == Extend(Segments(p), c)
  {
    assert (p + [c])[..|p|] == p;
  }

  lemma EndsEmpty(dir: Path)
    requires dir == "" || dir[|dir| - 1] == '/'
    ensures var s := Segments(dir); s[|s| - 1] == ""
  {
  }

  lemma ExtendLast(u: seq<Path>, y: Path, c: char)
    requires c != '/'
    ensures Extend(u + [y], c) == u + [y + [c]]
  {
    assert (u + [y])[..|u|] == u;
  }

  lemma AllButLast<T>(s: seq<T>, t: seq<T>)
    requires t != []
    ensures s + t == s + t[..|t| - 1] + [t[|t| - 1]]
  {
  }

  lemma SegmentsOfName(dir: Path, name: Path)
    requires '/' !in name && (dir == "" || dir[|dir| - 1] == '/')
    ensures var s := Segments(dir); s[|s| - 1] == "" && Segments(dir + name) == s[..|s| - 1] + [name]
  {
    EndsEmpty(dir);
    if name == "" {
      assert dir + name == dir;
    } else {
      var n := |name| - 1;
      var shorter, c := name[..n], name[n];
      var u := Segments(dir)[..|Segments(dir)| - 1];
      SegmentsOfName(dir, shorter);
      AllButLast(dir, name);
      SegmentsNext(dir + shorter, c);
      ExtendLast(u, shorter, c);
      assert Segments(dir + name) == u + [shorter + [c]];
      assert shorter + [c] == name;
    }
  }

  /** A separator at the end adds no component. */
  lemma SlashAddsNothing(p: Path)
    requires p != ""
    ensures Components(p + "/") == Components(p)
  {
    assert (p + "/")[..|p|] == p;
    var s := Segments(p);
    assert (s + [""])[..|s|] == s;
  }

  /** Nor does a dot after one. */
  lemma DotAddsNothing(p: Path)
    requires p != "" && p[|p| - 1] == '/'
    ensures Components(p + ".") == Components(p)
  {
    var s := Segments(p);
    assert (p + ".")[..|p|] == p;
    var u := s[..|s| - 1];
    assert s == u + [""] && "" + ['.'] == ".";
    assert Segments(p + ".") == u + ["."];
    assert (u + ["."])[..|u|] == u == (u + [""])[..|u|];
    FirstSegment(p);
  }

  /** A spelling that ends in a separator has more than one segment. */
  lemma FirstSegment(p: Path)
    requires p != "" && p[|p| - 1] == '/'
    ensures |Segments(p)| > 1
  {
  }

  /** Trimming takes nothing away but a root that stands alone. */
  lemma TrimmedComponents(p: Path)
    ensures Trimmed(p) != "" ==> Components(Trimmed(p)) == Components(p)
    ensures Trimmed(p) == "" ==> Components(p) == [] || Components(p) == ["/"]
  {
    var n := |p|;
    if n > 0 && (p[n - 1] == '/' || (n > 1 && p[n - 1] == '.' && p[n - 2] == '/')) {
      var q := p[..n - 1];
      TrimmedComponents(q);
      if q != "" {
        assert p == q + [p[n - 1]];
        if p[n - 1] == '/' { SlashAddsNothing(q); } else { DotAddsNothing(q); }
      } else {
        assert p == "/";
        assert Segments(p) == ["", ""];
      }
    }
  }

  lemma NameInDirectory(dir: Path, name: Path)
    requires '/' !in name && name != "" && name != "." && (dir == "" || dir[|dir| - 1] == '/')
    ensures Components(dir + name) == Components(dir) + [name]
  {
    var s := Segments(dir);
    SegmentsOfName(dir, name);
    var u := s[..|s| - 1];
    assert s == u + [""];
    assert (u + [name])[..|u|] == u == (u + [""])[..|u|];
    if dir == "" {
      assert dir + name == name && name[0] in name;
    } else {
      FirstSegment(dir);
    }
  }

  /** The name is the last component. */
  lemma NameIsLast(p: Path)
    requires HasName(p)
    ensures Components(p) == Components(Directory(p)) + [Name(p)]
  {
    var t := Trimmed(p);
    TrimmedComponents(p);
    assert t == Directory(p) + Name(p);
    NameInDirectory(Directory(p), Name(p));
  }

  lemma TrimmedEnd(p: Path)
    ensures var t := Trimmed(p); var n := |t|;
            (n > 0 ==> t[n - 1] != '/') && (n > 1 ==> t[n - 1] != '.' || t[n - 2] != '/')
  {
  }

  predicate Nameless(components: seq<Path>) {
    components == [] || !IsName(components[|components| - 1]) || components[|components| - 1] == "/"
  }

  /** Nothing at all, the root, the current directory, or a step upwards. */
  lemma NoNameMeaning(p: Path)
    requires !HasName(p)
    ensures Nameless(Components(p))
  {
    var t := Trimmed(p);
    NoNameCases(p);
    TrimmedComponents(p);
    if t == "." {
      OnlyDot();
    } else if t != "" {
      assert t == Directory(p) + Name(p);
      NameInDirectory(Directory(p), Name(p));
    }
  }

  lemma NoNameCases(p: Path)
    requires !HasName(p)
    ensures var t := Trimmed(p); t == "" || t == "." || Name(p) == ".."
  {
    TrimmedEnd(p);
    assert Trimmed(p) == Directory(p) + Name(p);
  }

  lemma OnlyDot()
    ensures Components(".") == ["."]
  {
    assert Segments("") == [""] && "" + ['.'] == ".";
    assert Segments(".") == ["."];
  }

  lemma LastDotNext(name: Path, c: char)
    requires name != ""
    ensures LastDot(name + [c]) == if c == '.' then |name| else LastDot(name)
  {
    assert (name + [c])[..|name|] == name;
  }

  lemma LastDotStays(name: Path, rest: Path)
    requires name != "" && '.' !in rest
    ensures LastDot(name + rest) == LastDot(name)
  {
    if rest == "" {
      assert name + rest == name;
    } else {
      var n := |rest| - 1;
      LastDotStays(name, rest[..n]);
      LastDotNext(name + rest[..n], rest[n]);
      assert name + rest == name + rest[..n] + [rest[n]];
    }
  }

  lemma SuffixHas(name: Path)
    requires name != ""
    ensures LastDot(name + ".tmp") == |name|
  {
    LastDotNext(name, '.');
    LastDotStays(name + ['.'], "tmp");
    assert name + ".tmp" == name + ['.'] + "tmp";
  }

  /** The file that is locked lies beside the path and adds to the path's name. */
  lemma LockFileName(p: Path)
    requires HasName(p)
    ensures LockFile(p) == Directory(p) + (Suffixed(Name(p)) + ".lock")
    ensures Components(LockFile(p)) == Components(Directory(p)) + [Suffixed(Name(p)) + ".lock"]
  {
    var name := Name(p);
    var lock := Suffixed(name) + ".lock";
    if HasExtension(name) {
      assert name == Stem(name) + "." + Extension(name);
    }
    assert LockFile(p) == Directory(p) + lock;
    NameInDirectory(Directory(p), lock);
  }

  /** `q` is `p`, which has no extension, with the one that stands in for it. */
  ghost predicate StandIn(p: Path, q: Path) {
    HasName(p) && !HasExtension(Name(p)) && Components(q) == Components(Directory(p)) + [Name(p) + ".tmp"]
  }

  /** Besides different spellings of one path only a path and its stand-in share a lock file. */
  lemma SameLockFileIff(p: Path, q: Path)
    ensures Components(LockFile(p)) == Components(LockFile(q)) <==>
            Components(p) == Components(q) || StandIn(p, q) || StandIn(q, p)
  {
    if HasName(p) && HasName(q) {
      SameLockNamed(p, q);
    } else if HasName(q) {
      UnnamedApart(p, q);
    } else if HasName(p) {
      UnnamedApart(q, p);
    }
  }

  /** What has no name has neither the components of something named nor of its lock file. */
  lemma UnnamedApart(p: Path, q: Path)
    requires !HasName(p) && HasName(q)
    ensures LockFile(p) == p && Components(p) != Components(q) && Components(p) != Components(LockFile(q))
    ensures !StandIn(p, q) && !StandIn(q, p)
  {
    var c, d, name := Components(p), Components(Directory(q)), Name(q);
    NoNameMeaning(p);
    NameIsLast(q);
    LockFileName(q);
    SuffixedName(name);
    EndsOtherwise(c, d, name);
    EndsLonger(c, d, name, ".tmp");
    EndsLonger(c, d, Suffixed(name), ".lock");
  }

  lemma SuffixedName(name: Path)
    requires name != "" && '/' !in name
    ensures name != "/" && Suffixed(name) != "/"
  {
  }

  lemma EndsOtherwise(c: seq<Path>, d: seq<Path>, name: Path)
    requires Nameless(c) && IsName(name) && name != "/"
    ensures c != d + [name]
  {
    assert (d + [name])[|d|] == name;
  }

  lemma EndsLonger(c: seq<Path>, d: seq<Path>, name: Path, ending: Path)
    requires Nameless(c) && |ending| > 2
    ensures c != d + [name + ending]
  {
    assert |name + ending| > 2;
    EndsOtherwise(c, d, name + ending);
  }

  lemma SameLast<T>(s: seq<T>, x: T, t: seq<T>, y: T)
    ensures s + [x] == t + [y] <==> s == t && x == y
  {
    if s + [x] == t + [y] {
      assert s == (s + [x])[..|s|] && t == (t + [y])[..|t|];
      assert (s + [x])[|s|] == x && (t + [y])[|t|] == y;
    }
  }

  lemma SameEnding(a: Path, b: Path, ending: Path)
    ensures a + ending == b + ending <==> a == b
  {
    if a + ending == b + ending {
      assert a == (a + ending)[..|a|] && b == (b + ending)[..|b|];
    }
  }

  lemma SameSuffixed(a: Path, b: Path)
    requires a != "" && b != ""
    ensures Suffixed(a) == Suffixed(b) <==>
            a == b || (!HasExtension(a) && b == a + ".tmp") || (!HasExtension(b) && a == b + ".tmp")
  {
    SuffixHas(a);
    SuffixHas(b);
    SameEnding(a, b, ".tmp");
  }

  lemma SameLockNamed(p: Path, q: Path)
    requires HasName(p) && HasName(q)
    ensures Components(LockFile(p)) == Components(LockFile(q)) <==>
            Components(p) == Components(q) || StandIn(p, q) || StandIn(q, p)
  {
    var d, e, a, b := Components(Directory(p)), Components(Directory(q)), Name(p), Name(q);
    LockFileName(p);
    LockFileName(q);
    NameIsLast(p);
    NameIsLast(q);
    SameLast(d, Suffixed(a) + ".lock", e, Suffixed(b) + ".lock");
    SameEnding(Suffixed(a), Suffixed(b), ".lock");
    SameSuffixed(a, b);
    SameLast(d, a, e, b);
    SameLast(d, a + ".tmp", e, b);
    SameLast(d, a, e, b + ".tmp");
  }

  // ---------------------------------------------------------------- two examples

  /** A name on its own. */
  lemma {:induction false} PlainName(name: Path)
    requires '/' !in name
    ensures Trimmed(name) == name && NameStart(name) == 0
  {
    if name != "" {
      assert name[|name| - 1] in name && (|name| > 1 ==> name[|name| - 2] in name);
      PlainName(name[..|name| - 1]);
    }
  }

  /** A path without directory and extension, and its stand-in. */
  lemma StandInLock(name: Path)
    requires '/' !in name && '.' !in name && name != ""
    ensures LockFile(name) == LockFile(name + ".tmp") == name + ".tmp" + ".lock"
  {
    assert name[0] in name;
    PlainName(name);
    PlainName(name + ".tmp");
    SuffixHas(name);
    LockFileName(name);
    LockFileName(name + ".tmp");
  }

  lemma MoreSlashes(dir: Path)
    requires dir != ""
    ensures Components(dir + "/") == Components(dir + "///")
  {
    var one := dir + "/";
    var two := one + "/";
    var three := two + "/";
    SlashAddsNothing(one);
    SlashAddsNothing(two);
    SameText(dir, three);
  }

  lemma SameText(dir: Path, three: Path)
    requires three == dir + "/" + "/" + "/"
    ensures three == dir + "///"
  {
  }

  lemma SlashesDoNotCount(dir: Path, name: Path)
    requires dir != "" && '/' !in name && IsName(name)
    ensures Components(dir + "/" + name) == Components(dir + "///" + name)
    ensures Components(LockFile(dir + "/" + name)) == Components(LockFile(dir + "///" + name))
  {
    MoreSlashes(dir);
    NameInDirectory(dir + "/", name);
    NameInDirectory(dir + "///", name);
    SameLockFileIff(dir + "/" + name, dir + "///" + name);
  }
}

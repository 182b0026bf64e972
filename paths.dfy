/** The path and file-name operations the pipeline uses: `str.lower`,
    `str.endswith` with a tuple of extensions, `os.path.basename`,
    `os.path.splitext(...)[0]` and `os.path.join` (POSIX flavour), and the
    list comprehension that keeps the image files of a sorted directory
    listing. */
module Paths {

  /** `str.lower` restricted to ASCII letters. */
  function ToLower(s: string): (r: string)
    ensures |r| == |s|
  {
    if s == [] then []
    else
      var c := s[0];
      [if 'A' <= c <= 'Z' then (c as int + 32) as char else c] + ToLower(s[1..])
  }

  /** Each letter 'A'..'Z' becomes its lower-case form; nothing else
      changes. */
  lemma {:induction false} ToLowerSpec(s: string)
    ensures forall k :: 0 <= k < |s| ==>
      ToLower(s)[k] == (if 'A' <= s[k] <= 'Z' then (s[k] as int + 32) as char else s[k])
  {
    if s != [] {
      ToLowerSpec(s[1..]);
      assert forall k :: 1 <= k < |s| ==> ToLower(s)[k] == ToLower(s[1..])[k - 1];
    }
  }

  lemma ToLowerIdempotent(s: string)
    ensures ToLower(ToLower(s)) == ToLower(s)
  {
    var once := ToLower(s);
    ToLowerSpec(s);
    ToLowerSpec(once);
    assert forall k :: 0 <= k < |s| ==> ToLower(once)[k] == once[k];
  }

  predicate EndsWith(s: string, suffix: string) {
    |suffix| <= |s| && s[|s| - |suffix|..] == suffix
  }

  /** `s.endswith(exts)` for a tuple `exts`. */
  predicate EndsWithAny(s: string, exts: seq<string>) {
    if exts == [] then false
    else EndsWith(s, exts[0]) || EndsWithAny(s, exts[1..])
  }

  /** `s.endswith(exts)` holds exactly when some extension ends `s`. */
  lemma {:induction false} EndsWithAnySpec(s: string, exts: seq<string>)
    ensures EndsWithAny(s, exts) <==> exists e :: e in exts && EndsWith(s, e)
  {
    if exts != [] {
      EndsWithAnySpec(s, exts[1..]);
      assert forall e :: e in exts <==> e == exts[0] || e in exts[1..];
    }
  }

  /** The extensions the lesion generator's batch driver accepts. */
  const GroundTruthExts: seq<string> := [".png", ".jpg", ".jpeg"]
  /** The extensions the preprocessing steps accept. */
  const PreprocessExts: seq<string> := [".png", ".jpg", ".jpeg", ".bmp", ".tiff"]

  /** `f.lower().endswith(exts)`. */
  predicate IsImageFile(path: string, exts: seq<string>) {
    EndsWithAny(ToLower(path), exts)
  }

  /** The filter ignores the case of the path: a path and its lower-cased
      form are accepted or refused together. */
  lemma IsImageFileIgnoresCase(path: string, exts: seq<string>)
    ensures IsImageFile(path, exts) == IsImageFile(ToLower(path), exts)
  {
    ToLowerIdempotent(path);
  }

  lemma EndsWithAnyCons(s: string, e: string, rest: seq<string>)
    ensures EndsWithAny(s, [e] + rest) == (EndsWith(s, e) || EndsWithAny(s, rest))
  {
    assert ([e] + rest)[1..] == rest;
  }

  /** The preprocessing filter accepts exactly the five extensions, in any
      case. */
  lemma ImageFilterExtensions(path: string)
    ensures IsImageFile(path, PreprocessExts) <==>
      var l := ToLower(path);
      EndsWith(l, ".png") || EndsWith(l, ".jpg") || EndsWith(l, ".jpeg")
      || EndsWith(l, ".bmp") || EndsWith(l, ".tiff")
  {
    var l := ToLower(path);
    var e: seq<string> := [];
    EndsWithAnyCons(l, ".tiff", e);
    EndsWithAnyCons(l, ".bmp", [".tiff"] + e);
    EndsWithAnyCons(l, ".jpeg", [".bmp"] + ([".tiff"] + e));
    EndsWithAnyCons(l, ".jpg", [".jpeg"] + ([".bmp"] + ([".tiff"] + e)));
    EndsWithAnyCons(l, ".png", [".jpg"] + ([".jpeg"] + ([".bmp"] + ([".tiff"] + e))));
    assert PreprocessExts == [".png"] + ([".jpg"] + ([".jpeg"] + ([".bmp"] + ([".tiff"] + e))));
  }

  /** The generator's filter accepts exactly three of them, so every file it
      takes the preprocessing steps take too. */
  lemma GroundTruthFilterExtensions(path: string)
    ensures IsImageFile(path, GroundTruthExts) <==>
      var l := ToLower(path);
      EndsWith(l, ".png") || EndsWith(l, ".jpg") || EndsWith(l, ".jpeg")
    ensures IsImageFile(path, GroundTruthExts) ==> IsImageFile(path, PreprocessExts)
  {
    var l := ToLower(path);
    var e: seq<string> := [];
    EndsWithAnyCons(l, ".jpeg", e);
    EndsWithAnyCons(l, ".jpg", [".jpeg"] + e);
    EndsWithAnyCons(l, ".png", [".jpg"] + ([".jpeg"] + e));
    assert GroundTruthExts == [".png"] + ([".jpg"] + ([".jpeg"] + e));
    ImageFilterExtensions(path);
  }

  /** Python compares strings code point by code point. */
  predicate LexLess(a: string, b: string)
    decreases |a|
  {
    if a == [] then b != []
    else if b == [] then false
    else a[0] < b[0] || (a[0] == b[0] && LexLess(a[1..], b[1..]))
  }

  /** What `sorted(glob(...))` yields: strictly increasing names. */
  predicate SortedNames(s: seq<string>) {
    forall i, j :: 0 <= i < j < |s| ==> LexLess(s[i], s[j])
  }

  /** `[f for f in listing if f.lower().endswith(exts)]`: the image files of
      the listing, in the listing's order. */
  function ImageFiles(listing: seq<string>, exts: seq<string>): seq<string> {
    if listing == [] then []
    else
      var rest := ImageFiles(listing[1..], exts);
      if IsImageFile(listing[0], exts) then [listing[0]] + rest else rest
  }

  /** The filter keeps exactly the image files of the listing, and a
      sorted listing stays sorted. */
  lemma {:induction false} ImageFilesSpec(listing: seq<string>, exts: seq<string>)
    ensures var r := ImageFiles(listing, exts);
      && |r| <= |listing|
      && (forall f :: f in r <==> f in listing && IsImageFile(f, exts))
      && (SortedNames(listing) ==> SortedNames(r))
  {
    if listing != [] {
      var rest := ImageFiles(listing[1..], exts);
      ImageFilesSpec(listing[1..], exts);
      assert forall f :: f in listing <==> f == listing[0] || f in listing[1..];
      if SortedNames(listing) {
        assert SortedNames(listing[1..]);
        assert forall f :: f in rest ==> LexLess(listing[0], f);
      }
    }
  }

  /** Position of the last `c` in `s`, or -1: `str.rfind`. */
  function LastIndexOf(s: string, c: char): (k: int)
    ensures -1 <= k < |s|
  {
    if s == [] then -1
    else if s[|s| - 1] == c then |s| - 1
    else LastIndexOf(s[..|s| - 1], c)
  }

  lemma {:induction false} LastIndexOfSpec(s: string, c: char)
    ensures var k := LastIndexOf(s, c);
      && (k >= 0 ==> s[k] == c)
      && forall i :: k < i < |s| ==> s[i] != c
  {
    if s != [] && s[|s| - 1] != c {
      LastIndexOfSpec(s[..|s| - 1], c);
    }
  }

  /** `os.path.basename`: what follows the last '/'. */
  function BaseName(path: string): string {
    path[LastIndexOf(path, '/') + 1..]
  }

  /** The base name is a suffix of the path, holds no '/', and is the whole
      path or follows a '/'. */
  lemma BaseNameSpec(path: string)
    ensures var b := BaseName(path);
      && |b| <= |path| && path[|path| - |b|..] == b
      && (forall i :: 0 <= i < |b| ==> b[i] != '/')
      && (|b| < |path| ==> path[|path| - |b| - 1] == '/')
  {
    LastIndexOfSpec(path, '/');
  }

  predicate AllDots(s: string) {
    s == [] || (s[0] == '.' && AllDots(s[1..]))
  }

  lemma {:induction false} AllDotsSpec(s: string)
    ensures AllDots(s) <==> forall i :: 0 <= i < |s| ==> s[i] == '.'
  {
    if s != [] {
      AllDotsSpec(s[1..]);
      assert forall i :: 1 <= i < |s| ==> s[i] == s[1..][i - 1];
    }
  }

  /** `os.path.splitext(name)[0]` for a name without '/': the name without
      its last extension. A dot that only dots precede does not start an
      extension, so ".png" and "..png" keep their whole name. */
  function Stem(name: string): string {
    var dot := LastIndexOf(name, '.');
    if dot > 0 && !AllDots(name[..dot]) then name[..dot] else name
  }

  /** The stem is a prefix of the name; when it is shorter, a '.' follows
      it, no later '.' occurs, and it is not made of dots alone. */
  lemma StemSpec(name: string)
    ensures var s := Stem(name);
      && |s| <= |name| && name[..|s|] == s
      && (s != name ==>
            && name[|s|] == '.'
            && (forall i :: |s| < i < |name| ==> name[i] != '.')
            && !AllDots(s))
  {
    LastIndexOfSpec(name, '.');
  }

  /** Removing an extension undoes adding it, when the stem is not all dots. */
  lemma StemOfExtended(s: string, ext: string)
    requires |ext| > 0 && ext[0] == '.' && forall i :: 0 < i < |ext| ==> ext[i] != '.'
    requires !AllDots(s)
    ensures Stem(s + ext) == s
  {
    var name := s + ext;
    LastIndexOfSpec(name, '.');
    var dot := LastIndexOf(name, '.');
    assert name[|s|] == '.';
    assert dot == |s| by {
      assert forall i :: |s| < i < |name| ==> name[i] == ext[i - |s|];
    }
    assert s != [];
    assert name[..dot] == s;
  }

  /** `os.path.join(dir, name)` for POSIX paths. */
  function Join(dir: string, name: string): string {
    if |name| > 0 && name[0] == '/' then name
    else if dir == [] || dir[|dir| - 1] == '/' then dir + name
    else dir + "/" + name
  }

  predicate IsAbsolute(p: string) {
    |p| > 0 && p[0] == '/'
  }

  /** A path ends with the name joined to it. An absolute name replaces the
      directory; a relative one is placed under it, after a '/' unless the
      directory is empty or already ends in one. */
  lemma JoinSpec(dir: string, name: string)
    ensures EndsWith(Join(dir, name), name)
    ensures IsAbsolute(name) ==> Join(dir, name) == name
    ensures !IsAbsolute(name) ==> var j := Join(dir, name);
      && |dir| + |name| <= |j| <= |dir| + 1 + |name| && j[..|dir|] == dir
      && (|j| == |dir| + |name| <==> dir == [] || dir[|dir| - 1] == '/')
      && (|j| > |dir| + |name| ==> j[|dir|] == '/')
  {
    var j := Join(dir, name);
    if !IsAbsolute(name) {
      if dir == [] || dir[|dir| - 1] == '/' {
        assert j == dir + name;
      } else {
        assert j == dir + "/" + name;
        assert j[|dir|] == '/';
      }
      assert j[..|dir|] == dir;
    }
    assert j[|j| - |name|..] == name;
  }

  /** Joining one directory with two names that are both absolute or both
      relative gives equal paths only for equal names. */
  lemma JoinInjective(dir: string, a: string, b: string)
    requires IsAbsolute(a) == IsAbsolute(b)
    ensures Join(dir, a) == Join(dir, b) <==> a == b
  {
    if Join(dir, a) == Join(dir, b) && !IsAbsolute(a) {
      var sep := if dir == [] || dir[|dir| - 1] == '/' then dir else dir + "/";
      assert Join(dir, a) == sep + a && Join(dir, b) == sep + b;
      assert a == (sep + a)[|sep|..];
      assert b == (sep + b)[|sep|..];
    }
  }

  /** The stem of a path's base name holds no '/'. */
  lemma StemOfBaseNameRelative(path: string)
    ensures !IsAbsolute(Stem(BaseName(path)))
  {
    BaseNameSpec(path);
    StemSpec(BaseName(path));
    if |Stem(BaseName(path))| > 0 {
      assert Stem(BaseName(path))[0] == BaseName(path)[0];
    }
  }
}

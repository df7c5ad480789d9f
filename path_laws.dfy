/** Properties of the path and extension helpers. */
module PathLaws {
  import opened PathNames

  // ---------------------------------------------------------------------
  // Parsing inverts printing
  // ---------------------------------------------------------------------

  lemma {:induction false} SplitPrefix(a: string, rest: string)
    requires '/' !in a
    ensures Split(a + rest) == [a + Split(rest)[0]] + Split(rest)[1..]
    decreases |a|
  {
    if a != [] {
      assert (a + rest)[1..] == a[1..] + rest;
      SplitPrefix(a[1..], rest);
      assert [a[0]] + (a[1..] + Split(rest)[0]) == a + Split(rest)[0];
    } else {
      assert a + rest == rest;
      assert a + Split(rest)[0] == Split(rest)[0];
      assert Split(rest) == [Split(rest)[0]] + Split(rest)[1..];
    }
  }

  lemma {:induction false} SplitJoin(ps: seq<string>)
    requires |ps| >= 1
    requires forall i :: 0 <= i < |ps| ==> '/' !in ps[i]
    ensures Split(Join(ps)) == ps
    decreases |ps|
  {
    if |ps| == 1 {
      SplitPrefix(ps[0], "");
      assert ps[0] + "" == ps[0];
    } else {
      var r := Join(ps[1..]);
      assert ps[0] + "/" + r == ps[0] + ("/" + r);
      SplitPrefix(ps[0], "/" + r);
      assert ("/" + r)[1..] == r;
      assert Split("/" + r) == [""] + Split(r);
      assert ps[0] + "" == ps[0];
      SplitJoin(ps[1..]);
      assert ps == [ps[0]] + ps[1..];
    }
  }

  lemma {:induction false} KeepValidParts(ps: seq<string>)
    requires forall i :: 0 <= i < |ps| ==> '/' !in ps[i]
    requires forall i :: 0 <= i < |ps| ==> ValidPart(ps[i])
    ensures KeepParts(ps) == ps
    decreases |ps|
  {
    if ps != [] {
      KeepValidParts(ps[1..]);
      assert ps == [ps[0]] + ps[1..];
    }
  }

  lemma {:induction false} JoinHead(ps: seq<string>)
    requires |ps| >= 1 && ps[0] != ""
    ensures |Join(ps)| >= 1 && Join(ps)[0] == ps[0][0]
    decreases |ps|
  {
  }

  lemma ParseRel(rel: string, ps: seq<string>)
    requires forall i :: 0 <= i < |ps| ==> ValidPart(ps[i])
    requires rel == Join(ps)
    ensures KeepParts(Split(rel)) == ps
  {
    if ps == [] {
      assert Split(rel) == [""];
    } else {
      SplitJoin(ps);
      KeepValidParts(ps);
    }
  }

  /** Printing a parsed path and parsing it again gives the same path. */
  lemma ParseStr(p: PurePath)
    requires ValidPath(p)
    ensures Parse(Str(p)) == p
  {
    var s := Str(p);
    if p.parts != [] {
      JoinHead(p.parts);
    }
    if p.root == "" {
      if p.parts == [] {
        assert s == ".";
        assert Split("") == [""];
        assert "."[1..] == "";
        assert ['.'] + "" == ".";
        assert Split(".") == [['.'] + Split("")[0]] + Split("")[1..];
        assert Split(".") == ["."];
        assert KeepParts(["."]) == [];
        assert SplitRoot(".") == ("", ".");
      } else {
        assert s == Join(p.parts);
        assert SplitRoot(s) == ("", Join(p.parts));
        ParseRel(Join(p.parts), p.parts);
      }
    } else if p.root == "/" {
      assert s[1..] == Join(p.parts);
      assert SplitRoot(s) == ("/", Join(p.parts));
      ParseRel(Join(p.parts), p.parts);
    } else {
      assert s[2..] == Join(p.parts);
      assert SplitRoot(s) == ("//", Join(p.parts));
      ParseRel(Join(p.parts), p.parts);
    }
  }

  /** `str(Path(s))` is a normal form: normalising it again changes nothing. */
  lemma NormalFormIdempotent(s: string)
    ensures Parse(Str(Parse(s))) == Parse(s)
    ensures Str(Parse(Str(Parse(s)))) == Str(Parse(s))
  {
    ParseStr(Parse(s));
  }

  lemma ParseSingle(a: string)
    requires ValidPart(a)
    ensures Parse(a) == PurePath("", [a])
  {
    assert SplitRoot(a) == ("", a);
    ParseRel(a, [a]);
  }

  /** Splitting at a separator splits both sides. */
  lemma {:induction false} SplitSep(x: string, y: string)
    ensures Split(x + "/" + y) == Split(x) + Split(y)
    decreases |x|
  {
    if x == [] {
      assert x + "/" + y == "/" + y;
      assert ("/" + y)[1..] == y;
    } else {
      assert (x + "/" + y)[1..] == x[1..] + "/" + y;
      SplitSep(x[1..], y);
    }
  }

  lemma {:induction false} KeepPartsAppend(xs: seq<string>, ys: seq<string>)
    requires forall i :: 0 <= i < |xs| ==> '/' !in xs[i]
    requires forall i :: 0 <= i < |ys| ==> '/' !in ys[i]
    ensures KeepParts(xs + ys) == KeepParts(xs) + KeepParts(ys)
    decreases |xs|
  {
    if xs == [] {
      assert xs + ys == ys;
    } else {
      assert (xs + ys)[1..] == xs[1..] + ys;
      KeepPartsAppend(xs[1..], ys);
    }
  }

  /** Text appended after a path with a relative part leaves its root alone. */
  lemma SplitRootAppend(a: string, t: string)
    requires SplitRoot(a).1 != ""
    ensures SplitRoot(a + t) == (SplitRoot(a).0, SplitRoot(a).1 + t)
  {
    var s := a + t;
    assert s[..|a|] == a;
    if a[0] == '/' {
      if |a| >= 2 && a[1] == '/' && (|a| == 2 || a[2] != '/') {
        assert s[2..] == a[2..] + t;
      } else {
        assert s[1..] == a[1..] + t;
      }
    }
  }

  lemma ParseAppend(a: string, t: string)
    requires SplitRoot(a).1 != ""
    ensures Parse(a + t) == PurePath(SplitRoot(a).0, KeepParts(Split(SplitRoot(a).1 + t)))
  {
    SplitRootAppend(a, t);
  }

  lemma KeepSplitSep(x: string, y: string)
    ensures KeepParts(Split(x + "/" + y)) == KeepParts(Split(x)) + KeepParts(Split(y))
  {
    SplitSep(x, y);
    KeepPartsAppend(Split(x), Split(y));
  }

  lemma ParseDotIsEmpty()
    ensures Parse(".") == Parse("") == PurePath("", [])
  {
    assert Split("") == [""];
    assert "."[1..] == "";
    assert ['.'] + "" == ".";
    assert Split(".") == [['.'] + Split("")[0]] + Split("")[1..];
    assert SplitRoot(".") == ("", ".");
  }

  lemma KeepDotPart(b: string)
    ensures KeepParts(Split("./" + b)) == KeepParts(Split(b))
  {
    KeepSplitSep(".", b);
    assert "." + "/" + b == "./" + b;
    ParseDotIsEmpty();
  }

  lemma KeepEmptyPart(b: string)
    ensures KeepParts(Split("/" + b)) == KeepParts(Split(b))
  {
    assert ("/" + b)[1..] == b;
    assert Split("/" + b) == [""] + Split(b);
    assert ([""] + Split(b))[1..] == Split(b);
  }

  /** Parsing a path with a relative part, a separator and more text. */
  lemma ParseSep(a: string, y: string)
    requires SplitRoot(a).1 != ""
    ensures Parse(a + "/" + y) == PurePath(SplitRoot(a).0, KeepParts(Split(SplitRoot(a).1)) + KeepParts(Split(y)))
  {
    var rel := SplitRoot(a).1;
    assert a + "/" + y == a + ("/" + y);
    ParseAppend(a, "/" + y);
    assert rel + ("/" + y) == rel + "/" + y;
    KeepSplitSep(rel, y);
  }

  lemma ParseDropsDot(a: string, b: string)
    requires SplitRoot(a).1 != ""
    ensures Parse(a + "/./" + b) == Parse(a + "/" + b)
  {
    assert a + "/./" + b == a + "/" + ("./" + b);
    ParseSep(a, "./" + b);
    ParseSep(a, b);
    KeepDotPart(b);
  }

  lemma ParseDropsDoubleSep(a: string, b: string)
    requires SplitRoot(a).1 != ""
    ensures Parse(a + "//" + b) == Parse(a + "/" + b)
  {
    assert a + "//" + b == a + "/" + ("/" + b);
    ParseSep(a, "/" + b);
    ParseSep(a, b);
    KeepEmptyPart(b);
  }

  lemma ParseDropsTrailingSep(a: string)
    requires SplitRoot(a).1 != ""
    ensures Parse(a + "/") == Parse(a)
  {
    assert a + "/" == a + "/" + "";
    ParseSep(a, "");
    ParseAppend(a, "");
    assert a + "" == a;
    assert SplitRoot(a).1 + "" == SplitRoot(a).1;
    ParseDotIsEmpty();
    assert KeepParts(Split(SplitRoot(a).1)) + [] == KeepParts(Split(SplitRoot(a).1));
  }

  /** `Path()` drops empty and "." parts: after a path with a relative
      part, a "." between separators, a doubled separator and a trailing
      separator change nothing, and "." is the empty path. */
  lemma ParseDropsEmptyParts(a: string, b: string)
    requires SplitRoot(a).1 != ""
    ensures Parse(a + "/./" + b) == Parse(a + "/" + b)
    ensures Parse(a + "//" + b) == Parse(a + "/" + b)
    ensures Parse(a + "/") == Parse(a)
    ensures Parse(".") == Parse("") == PurePath("", [])
  {
    ParseDropsDot(a, b);
    ParseDropsDoubleSep(a, b);
    ParseDropsTrailingSep(a);
    ParseDotIsEmpty();
  }

  // ---------------------------------------------------------------------
  // The suffix rule
  // ---------------------------------------------------------------------

  /** A non-empty suffix is a dot followed by at least one character, none
      of them a dot, and a non-empty name keeps a non-empty stem. */
  lemma SuffixShape(name: string)
    ensures Suffix(name) != "" ==> |Suffix(name)| >= 2 && Suffix(name)[0] == '.' && '.' !in Suffix(name)[1..]
    ensures name != "" ==> Stem(name) != ""
    ensures Stem(name) + Suffix(name) == name
  {
    var i := LastDot(name);
    if 0 < i < |name| - 1 {
      var s := name[i..];
      forall k | 0 <= k < |s[1..]| ensures s[1..][k] != '.' {
        assert s[1..][k] == name[i + 1 + k];
      }
    }
  }

  /** Appending a simple extension to a stem makes it the suffix, and the
      stem stays what it was. */
  lemma SuffixOfAppended(stem: string, e: string)
    requires stem != "" && SimpleExtension(e)
    ensures Suffix(stem + e) == e
    ensures Stem(stem + e) == stem
  {
    var n := stem + e;
    var i := LastDot(n);
    assert n[|stem|] == '.';
    assert n[i..] == e;
    assert n[..i] == stem;
  }

  lemma StemNoSlash(name: string)
    requires '/' !in name
    ensures '/' !in Stem(name)
  {
    var i := LastDot(name);
    if 0 < i < |name| - 1 {
      forall k | 0 <= k < i ensures name[..i][k] != '/' {
        assert name[..i][k] == name[k];
      }
    }
  }

  lemma NameValid(path: string)
    ensures GetName(path) == "" || ValidPart(GetName(path))
  {
  }

  /** with_suffix keeps root and parent and gives the stem the new suffix. */
  lemma WithSuffixShape(p: PurePath, suffix: string)
    requires ValidPath(p)
    requires WithSuffix(p, suffix).Ok?
    ensures ValidPath(WithSuffix(p, suffix).value)
    ensures Parent(WithSuffix(p, suffix).value) == Parent(p)
    ensures Name(WithSuffix(p, suffix).value) == Stem(Name(p)) + suffix
  {
    var q := WithSuffix(p, suffix).value;
    assert q.parts[..|q.parts| - 1] == p.parts[..|p.parts| - 1];
  }

  // ---------------------------------------------------------------------
  // change_extension, ensure_extension, strip_extension (main.py:596-610)
  // ---------------------------------------------------------------------

  /** change_extension fails exactly when the name is empty, the normalised
      extension is a lone dot, or it holds a separator. */
  lemma ChangeExtensionFails(path: string, newExtension: string)
    ensures var e := NormalizeExtension(newExtension);
      ChangeExtension(path, newExtension).ValueError? <==>
        (GetName(path) == "" || e == "." || '/' in e)
  {
    var e := NormalizeExtension(newExtension);
    var name := GetName(path);
    if name != "" && e != "." && '/' !in e {
      SuffixShape(name);
      StemNoSlash(name);
      var n := Stem(name) + e;
      assert |n| >= 2;
      assert forall k :: 0 <= k < |n| ==> n[k] != '/' by {
        forall k | 0 <= k < |n| ensures n[k] != '/' {
          if k < |Stem(name)| { assert n[k] == Stem(name)[k]; } else { assert n[k] == e[k - |Stem(name)|]; }
        }
      }
    } else if name != "" && e != "." {
      var n := Stem(name) + e;
      var k :| 0 <= k < |e| && e[k] == '/';
      assert n[|Stem(name)| + k] == '/';
    }
  }

  /** With a simple extension, change_extension gives the path that
      extension as its suffix and keeps its stem and its parent. */
  lemma ChangeExtensionSuffix(path: string, newExtension: string)
    requires SimpleExtension(NormalizeExtension(newExtension))
    requires GetName(path) != ""
    ensures ChangeExtension(path, newExtension).Ok?
    ensures GetExtension(ChangeExtension(path, newExtension).value) == NormalizeExtension(newExtension)
    ensures GetStem(ChangeExtension(path, newExtension).value) == GetStem(path)
    ensures GetParent(ChangeExtension(path, newExtension).value) == GetParent(path)
  {
    var e := NormalizeExtension(newExtension);
    ChangeExtensionFails(path, newExtension);
    var p := Parse(path);
    var q := WithSuffix(p, e).value;
    WithSuffixShape(p, e);
    ParseStr(q);
    SuffixShape(Name(p));
    SuffixOfAppended(Stem(Name(p)), e);
  }

  /** With a simple extension, ensure_extension raises exactly when the
      path has no name ("", ".", "/"). */
  lemma EnsureExtensionOk(path: string, extension: string)
    requires SimpleExtension(NormalizeExtension(extension))
    ensures EnsureExtension(path, extension).Ok? <==> GetName(path) != ""
  {
    var e := NormalizeExtension(extension);
    var name := Name(Parse(path));
    NameValid(path);
    if name != "" {
      StemNoSlash(name);
      assert ValidPart(Stem(name) + e);
    }
  }

  /** With a simple extension, the result of ensure_extension on a path
      with a name has that suffix, and applying ensure_extension again
      changes nothing. */
  lemma EnsureExtensionIdempotent(path: string, extension: string)
    requires SimpleExtension(NormalizeExtension(extension)) && GetName(path) != ""
    ensures EnsureExtension(path, extension).Ok?
    ensures GetExtension(EnsureExtension(path, extension).value) == NormalizeExtension(extension)
    ensures EnsureExtension(EnsureExtension(path, extension).value, extension) == EnsureExtension(path, extension)
  {
    EnsureExtensionOk(path, extension);
    var e := NormalizeExtension(extension);
    var p := Parse(path);
    if Suffix(Name(p)) != e {
      var q := WithSuffix(p, e).value;
      WithSuffixShape(p, e);
      ParseStr(q);
      SuffixShape(Name(p));
      SuffixOfAppended(Stem(Name(p)), e);
    } else {
      ParseStr(p);
    }
  }

  /** ensure_extension as written is not idempotent for an extension with
      more than one dot: "a.tar.gz" gains a second ".tar". */
  lemma EnsureExtensionDoubleDot()
    ensures EnsureExtension("a.tar.gz", "tar.gz") == Ok("a.tar.tar.gz")
    ensures EnsureExtension("a.tar.tar.gz", "tar.gz") == Ok("a.tar.tar.tar.gz")
  {
    assert "a.tar" + ".gz" == "a.tar.gz";
    assert "a.tar" + ".tar.gz" == "a.tar.tar.gz";
    assert "a.tar.tar" + ".gz" == "a.tar.tar.gz";
    assert "a.tar.tar" + ".tar.gz" == "a.tar.tar.tar.gz";
    ReappendGz("a.tar", "a.tar.gz");
    ReappendGz("a.tar.tar", "a.tar.tar.gz");
  }

  /** A name `stem + e0` with a simple extension `e0` other than the wanted
      one, under ensure_extension, becomes the stem with the wanted
      extension: whatever `e0` was is replaced. */
  lemma EnsureExtensionReplaces(stem: string, e0: string, extension: string)
    requires stem != "" && '/' !in stem && SimpleExtension(e0)
    requires NormalizeExtension(extension) != e0 && NormalizeExtension(extension) != "." && '/' !in NormalizeExtension(extension)
    ensures EnsureExtension(stem + e0, extension) == Ok(stem + NormalizeExtension(extension))
  {
    var name := stem + e0;
    var e := NormalizeExtension(extension);
    assert '/' !in name;
    assert name != "." by {
      assert |name| >= 3;
    }
    ParseSingle(name);
    SuffixOfAppended(stem, e0);
    var n := stem + e;
    assert '/' !in n;
    assert n != "." by {
      assert |n| >= 2;
    }
    assert Parse(name).parts[..0] + [n] == [n];
    assert Name(Parse(name)) == name && Suffix(name) != e;
    assert WithSuffix(Parse(name), e) == Ok(PurePath("", [n]));
    assert Str(PurePath("", [n])) == n;
  }

  /** A name `stem + ".gz"` whose stem has no separator, under ensure_extension
      with "tar.gz", becomes `stem + ".tar.gz"`. */
  lemma ReappendGz(stem: string, name: string)
    requires stem != "" && stem != "." && '/' !in stem && name == stem + ".gz"
    ensures EnsureExtension(name, "tar.gz") == Ok(stem + ".tar.gz")
  {
    assert SimpleExtension(".gz");
    assert NormalizeExtension("tar.gz") == ".tar.gz";
    assert ".tar.gz" != ".gz" by {
      assert |".tar.gz"| != |".gz"|;
    }
    assert '/' !in ".tar.gz";
    EnsureExtensionReplaces(stem, ".gz", "tar.gz");
  }

  /** The corrected ensure_extension is idempotent for every extension, and
      its result always ends with the normalised extension. */
  lemma EnsureExtensionFixedIdempotent(path: string, extension: string)
    requires EnsureExtensionFixed(path, extension).Ok?
    ensures var r := EnsureExtensionFixed(path, extension).value;
      var e := NormalizeExtension(extension);
      |e| <= |GetName(r)| && GetName(r)[|GetName(r)| - |e|..] == e
    ensures EnsureExtensionFixed(EnsureExtensionFixed(path, extension).value, extension) == EnsureExtensionFixed(path, extension)
  {
    var e := NormalizeExtension(extension);
    var p := Parse(path);
    var name := Name(p);
    if !(|e| <= |name| && name[|name| - |e|..] == e) {
      var q := WithSuffix(p, e).value;
      WithSuffixShape(p, e);
      ParseStr(q);
      var n := Name(q);
      assert n == Stem(name) + e;
      assert n[|n| - |e|..] == e;
    } else {
      ParseStr(p);
    }
  }

  /** strip_extension agrees with get_stem, except that it raises when the
      name is empty or the stem would be the lone dot. */
  lemma StripExtensionIsStem(path: string)
    ensures StripExtension(path) ==
      if GetName(path) != "" && GetStem(path) != "." then Ok(GetStem(path)) else ValueError
  {
    var name := GetName(path);
    SuffixShape(name);
    StemNoSlash(name);
    assert Stem(name) + "" == Stem(name);
  }

  // ---------------------------------------------------------------------
  // split_ext, path_split, path_parts, path_join (main.py:629-649)
  // ---------------------------------------------------------------------

  /** split_ext splits the name: stem followed by suffix is the name. */
  lemma SplitExtConcat(path: string)
    ensures SplitExt(path).0 + SplitExt(path).1 == GetName(path)
    ensures SplitExt(path).1 != "" ==> SplitExt(path).1[0] == '.'
  {
    SuffixShape(GetName(path));
  }

  /** Joining the two halves of path_split gives back the normalised path. */
  lemma PathSplitJoin(path: string)
    ensures PathJoin([PathSplit(path).0, PathSplit(path).1]) == Str(Parse(path))
  {
    var p := Parse(path);
    var parent := Parent(p);
    assert ValidPath(parent);
    ParseStr(parent);
    var name := Name(p);
    if name == "" {
      assert Split("") == [""];
      assert KeepParts([""]) == [];
      assert Parse("") == PurePath("", []);
      assert p.parts + [] == p.parts;
      assert Div(parent, Parse(name)) == PurePath(p.root, p.parts);
    } else {
      ParseSingle(name);
      assert p.parts == p.parts[..|p.parts| - 1] + [name];
      var a := PathSplit(path).0;
      assert Parse(a) == parent;
      assert Div(parent, Parse(name)) == p;
      assert DivAll(Parse(a), [name]) == DivAll(p, []);
    }
  }

  lemma {:induction false} DivAllParts(acc: PurePath, rest: seq<string>)
    requires forall i :: 0 <= i < |rest| ==> ValidPart(rest[i])
    ensures DivAll(acc, rest) == PurePath(acc.root, acc.parts + rest)
    decreases |rest|
  {
    if rest == [] {
      assert acc.parts + rest == acc.parts;
    } else {
      ParseSingle(rest[0]);
      DivAllParts(Div(acc, Parse(rest[0])), rest[1..]);
      assert acc.parts + [rest[0]] + rest[1..] == acc.parts + rest;
    }
  }

  lemma ParseRoot(r: string)
    requires r == "/" || r == "//"
    ensures Parse(r) == PurePath(r, [])
  {
    assert Split("") == [""];
    assert KeepParts([""]) == [];
    if r == "/" {
      assert |r| == 1 && r[0] == '/' && r[1..] == "";
      assert SplitRoot(r) == ("/", "");
    } else {
      assert |r| == 2 && r[0] == '/' && r[1] == '/' && r[2..] == "";
      assert SplitRoot(r) == ("//", "");
    }
  }

  /** Joining path_parts gives back the normalised path. */
  lemma PathPartsJoin(path: string)
    requires PathParts(path) != []
    ensures PathJoin(PathParts(path)) == Str(Parse(path))
  {
    var p := Parse(path);
    var ps := PathParts(path);
    if p.root != "" {
      assert ps[1..] == p.parts;
      ParseRoot(p.root);
      DivAllParts(PurePath(p.root, []), p.parts);
      assert [] + p.parts == p.parts;
    } else {
      assert ps == p.parts;
      ParseSingle(p.parts[0]);
      DivAllParts(PurePath("", [p.parts[0]]), p.parts[1..]);
      assert [p.parts[0]] + p.parts[1..] == p.parts;
    }
  }

  /** The extension normalisation is idempotent. */
  lemma NormalizeExtensionIdempotent(e: string)
    ensures NormalizeExtension(NormalizeExtension(e)) == NormalizeExtension(e)
  {
  }
}

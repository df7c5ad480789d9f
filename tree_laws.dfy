/** Properties of the abstract filesystem: what each change removes, adds
    and keeps, that it keeps the tree well formed, and how counts and
    sizes add up. */
module TreeLaws {
  import opened Tree

  // ---------------------------------------------------------------------
  // Shape of a well-formed tree
  // ---------------------------------------------------------------------

  /** Every proper ancestor of an entry is a directory. */
  lemma {:induction false} AncestorIsDir(fs: Fs, q: Path, k: nat)
    requires Wf(fs) && q in fs && k < |q|
    ensures IsDir(fs, q[..k])
    decreases |q|
  {
    var par := ParentOf(q);
    assert IsDir(fs, par);
    if k < |q| - 1 {
      AncestorIsDir(fs, par, k);
      assert par[..k] == q[..k];
    } else {
      assert q[..k] == par;
    }
  }

  lemma PrefixCases(a: Path, b: Path)
    ensures IsPrefix(a, b) <==> a == b || Below(a, b)
  {
    if |a| == |b| && b[..|a|] == a {
      assert b[..|b|] == b;
    }
  }

  /** Nothing lies below a file. */
  lemma FileIsLeaf(fs: Fs, c: Path)
    requires Wf(fs) && IsFile(fs, c)
    ensures Descendants(fs, c) == {}
    ensures Without(fs, c) == fs - {c}
  {
    forall q | q in fs && Below(c, q) ensures false {
      AncestorIsDir(fs, q, |c|);
    }
    forall q | q in fs ensures IsPrefix(c, q) <==> q == c {
      PrefixCases(c, q);
    }
    assert Without(fs, c).Keys == (fs - {c}).Keys;
  }

  /** A directory has no children exactly when it has no descendants. */
  lemma EmptyIffNoDescendants(fs: Fs, p: Path)
    requires Wf(fs)
    ensures Children(fs, p) == {} <==> Descendants(fs, p) == {}
  {
    if Descendants(fs, p) != {} {
      var q :| q in Descendants(fs, p);
      var c := q[..|p| + 1];
      if |q| == |p| + 1 {
        assert c == q;
      } else {
        AncestorIsDir(fs, q, |p| + 1);
      }
      assert c[..|p|] == p;
      assert c in Children(fs, p);
    }
  }

  /** Removing one subtree keeps the tree well formed. */
  lemma WfWithout(fs: Fs, p: Path)
    requires Wf(fs) && p != []
    ensures Wf(Without(fs, p))
  {
    var w := Without(fs, p);
    forall q | q in w && q != []
      ensures IsDir(w, ParentOf(q))
    {
    }
  }

  lemma WfEmptied(fs: Fs, p: Path)
    requires Wf(fs)
    ensures Wf(Emptied(fs, p))
  {
    var w := Emptied(fs, p);
    forall q | q in w && q != []
      ensures IsDir(w, ParentOf(q))
    {
    }
  }

  lemma EmptiedMinus(fs: Fs, p: Path)
    ensures Without(fs, p) == Emptied(fs, p) - {p}
  {
    forall q | q in fs ensures IsPrefix(p, q) <==> q == p || Below(p, q) {
      PrefixCases(p, q);
    }
    assert Without(fs, p).Keys == (Emptied(fs, p) - {p}).Keys;
  }

  /** After emptying, `p` has nothing below it and everything else is kept. */
  lemma EmptiedShape(fs: Fs, p: Path)
    ensures Children(Emptied(fs, p), p) == {}
    ensures Descendants(Emptied(fs, p), p) == {}
    ensures forall q :: q in fs && !Below(p, q) ==> q in Emptied(fs, p) && Emptied(fs, p)[q] == fs[q]
  {
  }

  // ---------------------------------------------------------------------
  // The delete walk
  // ---------------------------------------------------------------------

  lemma StripStep(fs0: Fs, done: set<Path>, c: Path)
    ensures StripAll(fs0, done + {c}) == Without(StripAll(fs0, done), c)
  {
    var a := StripAll(fs0, done + {c});
    var b := Without(StripAll(fs0, done), c);
    forall q ensures q in a <==> q in b {
      if q in fs0 && IsPrefix(c, q) {
        assert c in done + {c};
      }
    }
    assert a.Keys == b.Keys;
  }

  lemma StripNone(fs0: Fs)
    ensures StripAll(fs0, {}) == fs0
  {
  }

  /** Removing the subtree of every child of `p` empties `p`. */
  lemma StripChildren(fs0: Fs, p: Path)
    requires Wf(fs0)
    ensures StripAll(fs0, Children(fs0, p)) == Emptied(fs0, p)
  {
    var a := StripAll(fs0, Children(fs0, p));
    var b := Emptied(fs0, p);
    forall q | q in fs0 ensures q in a <==> q in b {
      if Below(p, q) {
        var c := q[..|p| + 1];
        if |q| == |p| + 1 {
          assert c == q;
        } else {
          AncestorIsDir(fs0, q, |p| + 1);
        }
        assert c[..|p|] == p;
        assert c in Children(fs0, p) && IsPrefix(c, q);
      }
      if exists d :: d in Children(fs0, p) && IsPrefix(d, q) {
        var d :| d in Children(fs0, p) && IsPrefix(d, q);
        assert q[..|p|] == d[..|p|];
      }
    }
    assert a.Keys == b.Keys;
  }

  /** A child not yet handled is untouched by the removal of its siblings. */
  lemma SiblingKept(fs0: Fs, p: Path, done: set<Path>, c: Path)
    requires c in Children(fs0, p)
    requires done <= Children(fs0, p) && c !in done
    ensures c in StripAll(fs0, done) && StripAll(fs0, done)[c] == fs0[c]
  {
    forall d | d in done ensures !IsPrefix(d, c) {
      assert |d| == |c|;
      assert c[..|c|] == c;
    }
  }

  /** One step of the removal loop over the children of `p`: the next child
      is still there as it was, its subtree is smaller than that of `p`, and
      removing it extends the set of children already handled. */
  lemma ChildStep(fs0: Fs, p: Path, done: set<Path>, c: Path)
    requires c in Children(fs0, p)
    requires done <= Children(fs0, p) && c !in done
    ensures c != [] && c in StripAll(fs0, done) && StripAll(fs0, done)[c] == fs0[c]
    ensures |Descendants(StripAll(fs0, done), c)| < |Descendants(fs0, p)|
    ensures StripAll(fs0, done + {c}) == Without(StripAll(fs0, done), c)
  {
    SiblingKept(fs0, p, done, c);
    assert c in Descendants(fs0, p);
    DescendantsShrink(StripAll(fs0, done), fs0, p, c);
    StripStep(fs0, done, c);
  }

  lemma {:induction false} SubsetCard<T>(a: set<T>, b: set<T>)
    requires a <= b
    ensures |a| <= |b|
    decreases b
  {
    if a != {} {
      var x :| x in a;
      SubsetCard(a - {x}, b - {x});
    }
  }

  /** The walk's measure: below a child there are fewer entries than below
      its parent, also once parts of the tree are gone. */
  lemma DescendantsShrink(fsNow: Fs, fs0: Fs, p: Path, c: Path)
    requires fsNow.Keys <= fs0.Keys
    requires c in Descendants(fs0, p)
    ensures |Descendants(fsNow, c)| < |Descendants(fs0, p)|
  {
    var a := Descendants(fsNow, c);
    var b := Descendants(fs0, p);
    forall q | q in a ensures q in b - {c} {
      assert q[..|p|] == c[..|p|];
    }
    SubsetCard(a, b - {c});
  }

  // ---------------------------------------------------------------------
  // Counting and sizing
  // ---------------------------------------------------------------------

  /** Adding one entry to the entries seen adds one to the count exactly
      when the entry is of the kind counted. */
  lemma SelectStep(fs: Fs, seen: set<Path>, q: Path, k: Kind)
    requires q !in seen
    ensures |Select(fs, seen + {q}, k)| == |Select(fs, seen, k)| + (if q in fs && Matches(fs[q], k) then 1 else 0)
  {
    if q in fs && Matches(fs[q], k) {
      assert Select(fs, seen + {q}, k) == Select(fs, seen, k) + {q};
    } else {
      assert Select(fs, seen + {q}, k) == Select(fs, seen, k);
    }
  }

  /** Every entry is a file or a directory, so the entries are counted by
      the files and the folders together. */
  lemma Partition(fs: Fs, s: set<Path>)
    ensures |Select(fs, s, Entries)| == |Select(fs, s, Files)| + |Select(fs, s, Folders)|
  {
    var f := Select(fs, s, Files);
    var d := Select(fs, s, Folders);
    assert Select(fs, s, Entries) == f + d;
    assert f * d == {};
  }

  lemma {:induction false} TotalSizeRemove(fs: Fs, s: set<Path>, q: Path)
    requires q in s
    ensures TotalSize(fs, s) == SizeAt(fs, q) + TotalSize(fs, s - {q})
    decreases |s|
  {
    var p :| p in s && TotalSize(fs, s) == SizeAt(fs, p) + TotalSize(fs, s - {p});
    if p != q {
      TotalSizeRemove(fs, s - {p}, q);
      TotalSizeRemove(fs, s - {q}, p);
      assert s - {p} - {q} == s - {q} - {p};
    }
  }

  /** Adding one more entry adds its size. */
  lemma TotalSizeAdd(fs: Fs, s: set<Path>, q: Path)
    requires q !in s
    ensures TotalSize(fs, s + {q}) == TotalSize(fs, s) + SizeAt(fs, q)
  {
    TotalSizeRemove(fs, s + {q}, q);
    assert s + {q} - {q} == s;
  }

  /** Directories add nothing to a size: the size of the entries is the
      size of the files among them. */
  lemma {:induction false} TotalSizeFiles(fs: Fs, s: set<Path>)
    ensures TotalSize(fs, Select(fs, s, Files)) == TotalSize(fs, s)
    decreases |s|
  {
    if s != {} {
      var q :| q in s;
      TotalSizeRemove(fs, s, q);
      TotalSizeFiles(fs, s - {q});
      var f := Select(fs, s - {q}, Files);
      if q in fs && fs[q].File? {
        assert Select(fs, s, Files) == f + {q};
        TotalSizeAdd(fs, f, q);
      } else {
        assert Select(fs, s, Files) == f;
      }
    }
  }

  /** A proceeding delete of `p` removes `p` and exactly the files and
      folders the confirmation prompt counts. */
  lemma RemovalCount(fs: Fs, p: Path)
    requires IsDir(fs, p)
    ensures |Without(fs, p).Keys| + 1 + |Select(fs, Descendants(fs, p), Files)|
            + |Select(fs, Descendants(fs, p), Folders)| == |fs.Keys|
    ensures Without(fs, p).Keys == fs.Keys - {p} - Descendants(fs, p)
  {
    var w := Without(fs, p).Keys;
    var d := Descendants(fs, p);
    forall q | q in fs ensures IsPrefix(p, q) <==> q == p || Below(p, q) {
      PrefixCases(p, q);
    }
    assert fs.Keys == w + {p} + d;
    assert w * {p} == {} && (w + {p}) * d == {};
    Partition(fs, d);
    assert Select(fs, d, Entries) == d;
  }

  // ---------------------------------------------------------------------
  // Creating directories
  // ---------------------------------------------------------------------

  /** Making the missing ancestors of `p` keeps the tree well formed and
      leaves every ancestor a directory; existing entries keep their kind. */
  lemma WfWithAncestors(fs: Fs, p: Path)
    requires Wf(fs) && !AncestorIsFile(fs, p)
    ensures Wf(WithAncestors(fs, p))
    ensures forall k :: 0 <= k < |p| ==> IsDir(WithAncestors(fs, p), p[..k])
    ensures forall q :: q in fs ==> q in WithAncestors(fs, p) && WithAncestors(fs, p)[q] == fs[q]
    ensures forall q :: q in WithAncestors(fs, p) && q !in fs ==> Below(q, p)
  {
    var w := WithAncestors(fs, p);
    forall k | 0 <= k < |p| ensures IsDir(w, p[..k]) {
      assert p[..k] in StrictPrefixes(p);
      if p[..k] in fs {
        assert !IsFile(fs, p[..k]);
      }
    }
    forall q | q in w && q != []
      ensures IsDir(w, ParentOf(q))
    {
      if q !in fs {
        var k :| 0 <= k < |p| && q == p[..k];
        assert q[..|q| - 1] == p[..k - 1];
      }
    }
  }

  lemma WfMkdirParents(fs: Fs, p: Path)
    requires Wf(fs) && !AncestorIsFile(fs, p) && p !in fs
    ensures Wf(MkdirParents(fs, p))
    ensures IsDir(MkdirParents(fs, p), p)
  {
    WfWithAncestors(fs, p);
    var w := WithAncestors(fs, p);
    if p != [] {
      assert IsDir(w, p[..|p| - 1]);
    }
  }

  // ---------------------------------------------------------------------
  // Files
  // ---------------------------------------------------------------------

  lemma WfRemoveFile(fs: Fs, c: Path)
    requires Wf(fs) && IsFile(fs, c)
    ensures Wf(fs - {c})
  {
  }

  lemma WfPutFile(fs: Fs, t: Path, n: Node)
    requires Wf(fs) && n.File? && t != [] && IsDir(fs, ParentOf(t)) && !IsDir(fs, t)
    ensures Wf(fs[t := n])
  {
  }

  // ---------------------------------------------------------------------
  // Relocating and copying a subtree
  // ---------------------------------------------------------------------

  /** The entries of the image are the entries below `src`, shifted. */
  lemma ImageAt(fs: Fs, src: Path, dst: Path, q: Path)
    requires q in fs && IsPrefix(src, q)
    ensures dst + q[|src|..] in Image(fs, src, dst)
    ensures Image(fs, src, dst)[dst + q[|src|..]] == fs[q]
  {
    var k := dst + q[|src|..];
    assert k[|dst|..] == q[|src|..];
    assert src + k[|dst|..] == q;
  }

  lemma ImageKey(fs: Fs, src: Path, dst: Path, k: Path)
    requires k in Image(fs, src, dst)
    ensures IsPrefix(dst, k)
    ensures src + k[|dst|..] in fs && IsPrefix(src, src + k[|dst|..])
    ensures Image(fs, src, dst)[k] == fs[src + k[|dst|..]]
  {
    var q :| q in fs && IsPrefix(src, q) && k == dst + q[|src|..];
    assert k[..|dst|] == dst;
    assert k[|dst|..] == q[|src|..];
    assert src + k[|dst|..] == q;
  }

  /** For a path below `dst`, the image holds what `src` holds at the same
      relative place, and nothing else. */
  lemma ImageShape(fs: Fs, src: Path, dst: Path, r: Path)
    ensures dst + r in Image(fs, src, dst) <==> src + r in fs
    ensures src + r in fs ==> Image(fs, src, dst)[dst + r] == fs[src + r]
  {
    if src + r in fs {
      ImageAt(fs, src, dst, src + r);
      assert (src + r)[|src|..] == r;
    }
    if dst + r in Image(fs, src, dst) {
      ImageKey(fs, src, dst, dst + r);
      assert (dst + r)[|dst|..] == r;
    }
  }

  lemma ParentInImage(fs: Fs, src: Path, dst: Path, k: Path)
    requires Wf(fs) && IsDir(fs, src)
    requires k in Image(fs, src, dst) && |k| > |dst|
    ensures IsDir(Image(fs, src, dst), ParentOf(k))
  {
    ImageKey(fs, src, dst, k);
    var r := k[|dst|..];
    DropLast(dst, r, k);
    SubtreeParent(fs, src, r);
    ImageShape(fs, src, dst, r[..|r| - 1]);
  }

  /** The parent of an entry below `src` is a directory at the same
      relative place. */
  lemma SubtreeParent(fs: Fs, src: Path, r: Path)
    requires Wf(fs) && src + r in fs && |r| > 0
    ensures IsDir(fs, src + r[..|r| - 1])
  {
    var q := src + r;
    assert IsDir(fs, ParentOf(q));
    assert ParentOf(q) == src + r[..|r| - 1];
  }

  lemma DropLast(a: Path, r: Path, k: Path)
    requires |r| > 0 && |a| <= |k| && k[..|a|] == a && k[|a|..] == r
    ensures k == a + r && k[..|k| - 1] == a + r[..|r| - 1]
  {
    assert k == k[..|a|] + k[|a|..];
  }

  /** Renaming a directory to a fresh path whose parent is a directory, and
      which does not lie inside the directory itself, keeps the tree well formed. */
  lemma WfRelocated(fs: Fs, src: Path, dst: Path)
    requires Wf(fs) && IsDir(fs, src)
    requires dst != [] && dst !in fs && !IsPrefix(src, dst) && IsDir(fs, ParentOf(dst))
    ensures Wf(Relocated(fs, src, dst))
  {
    var r := Relocated(fs, src, dst);
    assert src != [];
    NothingBelowFresh(fs, dst);
    forall k | k in r && k != []
      ensures IsDir(r, ParentOf(k))
    {
      if k in Image(fs, src, dst) {
        RelocatedParentOfImage(fs, src, dst, k);
      } else {
        RelocatedParentOfKept(fs, src, dst, k);
      }
    }
    if [] in Image(fs, src, dst) {
      ImageKey(fs, src, dst, []);
    }
  }

  /** Nothing lies at or below a path that is not in the tree. */
  lemma NothingBelowFresh(fs: Fs, dst: Path)
    requires Wf(fs) && dst !in fs
    ensures forall k :: k in fs ==> !IsPrefix(dst, k)
  {
    forall k | k in fs && IsPrefix(dst, k) ensures false {
      if k != dst {
        AncestorIsDir(fs, k, |dst|);
      }
    }
  }

  lemma RelocatedParentOfImage(fs: Fs, src: Path, dst: Path, k: Path)
    requires Wf(fs) && IsDir(fs, src)
    requires dst != [] && dst !in fs && !IsPrefix(src, dst) && IsDir(fs, ParentOf(dst))
    requires k in Image(fs, src, dst)
    ensures IsDir(Relocated(fs, src, dst), ParentOf(k))
  {
    ImageKey(fs, src, dst, k);
    if |k| > |dst| {
      ParentInImage(fs, src, dst, k);
    } else {
      assert k == dst;
      var par := ParentOf(k);
      assert par in Without(fs, src);
      if par in Image(fs, src, dst) {
        ImageKey(fs, src, dst, par);
      }
    }
  }

  lemma RelocatedParentOfKept(fs: Fs, src: Path, dst: Path, k: Path)
    requires Wf(fs) && IsDir(fs, src)
    requires dst != [] && dst !in fs
    requires k in Without(fs, src) && k != []
    ensures IsDir(Relocated(fs, src, dst), ParentOf(k))
  {
    var par := ParentOf(k);
    assert IsDir(fs, par);
    assert par in Without(fs, src);
    if par in Image(fs, src, dst) {
      ImageKey(fs, src, dst, par);
      NothingBelowFresh(fs, dst);
    }
  }

  /** What renaming a subtree does: `dst` below holds what `src` held, the
      old subtree is gone, and every other entry is kept. */
  lemma RelocatedShape(fs: Fs, src: Path, dst: Path, rel: Path, q: Path)
    requires Wf(fs) && IsDir(fs, src)
    requires dst != [] && dst !in fs && !IsPrefix(src, dst)
    ensures dst + rel in Relocated(fs, src, dst) <==> src + rel in fs
    ensures src + rel in fs ==> Relocated(fs, src, dst)[dst + rel] == fs[src + rel]
    ensures !IsPrefix(src, q) && !IsPrefix(dst, q) ==>
      (q in Relocated(fs, src, dst) <==> q in fs) &&
      (q in fs ==> Relocated(fs, src, dst)[q] == fs[q])
    ensures IsPrefix(src, q) && !IsPrefix(dst, q) ==> q !in Relocated(fs, src, dst)
  {
    ImageShape(fs, src, dst, rel);
    if q in Image(fs, src, dst) {
      ImageKey(fs, src, dst, q);
    }
    forall k | k in fs && IsPrefix(dst, k) ensures false {
      if k != dst {
        AncestorIsDir(fs, k, |dst|);
      }
    }
  }

  /** A conflict-free copy into a place whose ancestors are no files keeps
      the tree well formed. */
  lemma WfCopied(fs: Fs, src: Path, dst: Path)
    requires Wf(fs) && IsDir(fs, src)
    requires !AncestorIsFile(fs, dst) && !CopyConflict(fs, src, dst)
    ensures Wf(Copied(fs, src, dst))
  {
    WfWithAncestors(fs, dst);
    var a := WithAncestors(fs, dst);
    var im := Image(fs, src, dst);
    var c := Copied(fs, src, dst);
    ImageAt(fs, src, dst, src);
    assert src[|src|..] == [] && dst + [] == dst;
    assert im[dst] == Dir;
    forall k | k in c && k != []
      ensures IsDir(c, ParentOf(k))
    {
      var par := ParentOf(k);
      if k in im {
        ImageKey(fs, src, dst, k);
        if |k| > |dst| {
          ParentInImage(fs, src, dst, k);
        } else {
          assert k == dst;
          assert IsDir(a, ParentOf(dst));
          if par in im {
            ImageKey(fs, src, dst, par);
          }
        }
      } else {
        assert IsDir(a, par);
        if par in im {
          ImageKey(fs, src, dst, par);
          var q := src + par[|dst|..];
          assert dst + q[|src|..] == par by {
            assert q[|src|..] == par[|dst|..];
          }
          if par in fs {
            assert !Clash(fs, q, dst + q[|src|..]);
          }
        }
      }
    }
    if [] in im {
      ImageKey(fs, src, dst, []);
    }
  }

  /** What a conflict-free copy does: below `dst` it holds what `src` holds,
      other entries below `dst` are kept, and so is everything outside `dst`
      except the ancestors of `dst` that had to be made. */
  lemma CopiedShape(fs: Fs, src: Path, dst: Path, rel: Path, q: Path)
    ensures src + rel in fs ==> dst + rel in Copied(fs, src, dst) && Copied(fs, src, dst)[dst + rel] == fs[src + rel]
    ensures !IsPrefix(dst, q) && q in fs ==> q in Copied(fs, src, dst) && Copied(fs, src, dst)[q] == fs[q]
    ensures IsPrefix(dst, q) && q in fs && q !in Image(fs, src, dst) ==> Copied(fs, src, dst)[q] == fs[q]
  {
    ImageShape(fs, src, dst, rel);
    if q in Image(fs, src, dst) {
      ImageKey(fs, src, dst, q);
    }
  }

  /** Nothing exists below a file. */
  lemma NoEntryBelowFile(fs: Fs, q: Path)
    requires Wf(fs)
    ensures AncestorIsFile(fs, q) ==> q !in fs
  {
    if AncestorIsFile(fs, q) && q in fs {
      var k :| 0 <= k < |q| && IsFile(fs, q[..k]);
      AncestorIsDir(fs, q, k);
    }
  }

  /** Removing a subtree keeps every other entry as it was. */
  lemma WithoutPart(fs: Fs, p: Path)
    ensures forall q :: q in Without(fs, p) ==> q in fs && Without(fs, p)[q] == fs[q] && !IsPrefix(p, q)
  {
  }

  /** Emptying a folder keeps every other entry as it was. */
  lemma EmptiedPart(fs: Fs, p: Path)
    ensures forall q :: q in Emptied(fs, p) ==> q in fs && Emptied(fs, p)[q] == fs[q] && !Below(p, q)
  {
  }
}

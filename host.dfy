/**
 * The host the organizer runs on, reduced to what its logic observes: a
 * directory tree, paths into it, `os.path.splitext` and `os.path.basename`,
 * and the handful of file-system calls the organizer makes (`os.makedirs`,
 * `shutil.copy2`, `shutil.move`, `os.rmdir`, `os.listdir`, `os.path.exists`).
 *
 * A path is the sequence of its components below the root of the tree, so
 * `os.path.join` is concatenation and two paths name the same entry exactly
 * when they are equal. A directory carries a `writable` flag: creating or
 * removing an entry inside a directory that is not writable fails, which is
 * how the model produces the `OSError`s the organizer catches.
 */
module Host {
  import opened Wrappers
  import opened Text

  type Path = seq<string>

  /** A file (its content abstracted to a number) or a directory of named entries. */
  datatype Node = File(content: nat) | Dir(children: map<string, Node>, writable: bool)

  /** The entry at `p`, if there is one. */
  function Get(n: Node, p: Path): Option<Node>
  {
    if p == [] then Some(n)
    else match n
      case File(_) => None
      case Dir(c, _) => if p[0] in c then Get(c[p[0]], p[1..]) else None
  }

  predicate Exists(n: Node, p: Path) { Get(n, p).Some? }

  predicate IsDir(n: Node, p: Path) { Get(n, p).Some? && Get(n, p).value.Dir? }

  predicate IsFile(n: Node, p: Path) { Get(n, p).Some? && Get(n, p).value.File? }

  /** A directory inside which entries may be created and removed. */
  predicate IsWritableDir(n: Node, p: Path) { IsDir(n, p) && Get(n, p).value.writable }

  /** The names `os.listdir(p)` reports, or none when `p` is not a directory. */
  function Children(n: Node, p: Path): (names: set<string>)
    ensures forall x :: x in names <==> Exists(n, p + [x])
    ensures names != {} ==> IsDir(n, p)
  {
    if IsDir(n, p) then
      var c := Get(n, p).value.children;
      assert forall x :: Exists(n, p + [x]) <==> x in c by {
        forall x ensures Exists(n, p + [x]) <==> x in c {
          GetAppend(n, p, [x]);
        }
      }
      c.Keys
    else
      assert forall x :: !Exists(n, p + [x]) by {
        forall x ensures !Exists(n, p + [x]) {
          GetAppend(n, p, [x]);
        }
      }
      {}
  }

  function Parent(p: Path): Path
    requires p != []
  {
    p[..|p| - 1]
  }

  /** `os.path.basename`: the last component (the empty string for the root). */
  function Basename(p: Path): string
  {
    if p == [] then "" else p[|p| - 1]
  }

  predicate IsPrefix(a: Path, b: Path) { |a| <= |b| && b[..|a|] == a }

  /** Replace or add the entry at `p`; nothing changes when the parent of `p` is missing. */
  function Put(n: Node, p: Path, v: Node): Node
  {
    if p == [] then v
    else match n
      case File(_) => n
      case Dir(c, w) =>
        if |p| == 1 then Dir(c[p[0] := v], w)
        else if p[0] in c then Dir(c[p[0] := Put(c[p[0]], p[1..], v)], w)
        else n
  }

  /** Delete the entry at `p` with everything below it; nothing changes when it is missing. */
  function Remove(n: Node, p: Path): Node
  {
    if p == [] then n
    else match n
      case File(_) => n
      case Dir(c, w) =>
        if |p| == 1 then Dir(c - {p[0]}, w)
        else if p[0] in c then Dir(c[p[0] := Remove(c[p[0]], p[1..])], w)
        else n
  }

  /** What `shutil.copy2(src, dst)` needs to succeed: a source file and a writable folder for `dst`. */
  predicate CanCopy(n: Node, src: Path, dst: Path)
  {
    IsFile(n, src) && dst != [] && IsWritableDir(n, Parent(dst))
  }

  /**
   * What `shutil.move(src, dst)` needs to succeed: an existing source, both
   * folders writable, and a destination that does not lie inside the source.
   * The write permission that rename(2) also needs on a folder that changes
   * parent is not part of the model: a read-only folder moves as if writable.
   */
  predicate CanMove(n: Node, src: Path, dst: Path)
  {
    src != [] && dst != [] && Exists(n, src) && IsWritableDir(n, Parent(src))
    && IsWritableDir(n, Parent(dst)) && !IsPrefix(src, dst)
  }

  /**
   * When the rename fails, `shutil.move` falls back to `shutil.copy2` and
   * then `os.unlink(src)`. For a source file whose folder cannot be written
   * and a destination folder that can, the copy lands and only the unlink
   * fails: the move reports an error but leaves a copy at `dst`.
   */
  predicate CopiesOnFailedMove(n: Node, src: Path, dst: Path)
  {
    src != [] && CanCopy(n, src, dst) && !IsWritableDir(n, Parent(src))
  }

  /** `names` lists the entries of a folder: each name once, and every name. */
  ghost predicate Enumerates(names: seq<string>, keys: set<string>)
  {
    (forall x :: x in names <==> x in keys)
    && forall i, j :: 0 <= i < j < |names| ==> names[i] != names[j]
  }

  /** The tree after the entry at `src` is renamed to `dst`. */
  function Moved(n: Node, src: Path, dst: Path): Node
    requires Exists(n, src)
  {
    Put(Remove(n, src), dst, Get(n, src).value)
  }

  /** Walking `a + b` is walking `a`, then `b` from there. */
  lemma {:induction false} GetAppend(n: Node, a: Path, b: Path)
    ensures Get(n, a + b) == if Get(n, a).Some? then Get(Get(n, a).value, b) else None
  {
    if a == [] {
      assert a + b == b;
    } else {
      assert (a + b)[0] == a[0];
      assert (a + b)[1..] == a[1..] + b;
      if n.Dir? && a[0] in n.children {
        GetAppend(n.children[a[0]], a[1..], b);
      }
    }
  }

  /** A change below an existing entry `a` is a change of the node at `a`. */
  lemma {:induction false} PutAppend(n: Node, a: Path, b: Path, v: Node)
    requires Exists(n, a)
    ensures Put(n, a + b, v) == Put(n, a, Put(Get(n, a).value, b, v))
  {
    if a == [] {
      assert a + b == b;
    } else {
      assert (a + b)[1..] == a[1..] + b;
      if |a| > 1 {
        PutAppend(n.children[a[0]], a[1..], b, v);
      }
    }
  }

  /** Removing below an existing entry `a` is a change of the node at `a`. */
  lemma {:induction false} RemoveAppend(n: Node, a: Path, b: Path)
    requires Exists(n, a) && b != []
    ensures Remove(n, a + b) == Put(n, a, Remove(Get(n, a).value, b))
  {
    if a == [] {
      assert a + b == b;
    } else {
      assert (a + b)[1..] == a[1..] + b;
      if |a| > 1 {
        RemoveAppend(n.children[a[0]], a[1..], b);
      }
    }
  }

  /** After a `Put` below an existing parent, the entry holds the new node. */
  lemma {:induction false} GetPutSame(n: Node, p: Path, v: Node)
    requires p != [] && IsDir(n, Parent(p))
    ensures Get(Put(n, p, v), p) == Some(v)
  {
    if |p| > 1 {
      assert Parent(p)[0] == p[0] && Parent(p)[1..] == Parent(p[1..]);
      GetPutSame(n.children[p[0]], p[1..], v);
    }
  }

  /** A `Put` at `p` leaves every path that is neither above nor below `p` alone. */
  lemma {:induction false} GetPutDisjoint(n: Node, p: Path, q: Path, v: Node)
    requires !IsPrefix(p, q) && !IsPrefix(q, p)
    ensures Get(Put(n, p, v), q) == Get(n, q)
  {
    if n.Dir? && |p| > 1 && p[0] == q[0] && p[0] in n.children {
      GetPutDisjoint(n.children[p[0]], p[1..], q[1..], v);
    }
  }

  /** Replacing the node at an existing path by itself changes nothing. */
  lemma {:induction false} PutGetSelf(n: Node, p: Path)
    requires Exists(n, p)
    ensures Put(n, p, Get(n, p).value) == n
  {
    if p != [] {
      if |p| > 1 {
        PutGetSelf(n.children[p[0]], p[1..]);
      }
      assert n.children[p[0] := Put(n.children[p[0]], p[1..], Get(n, p).value)] == n.children;
    }
  }

  /** Two `Put`s at the same path: the second one wins. */
  lemma {:induction false} PutPut(n: Node, p: Path, u: Node, v: Node)
    ensures Put(Put(n, p, u), p, v) == Put(n, p, v)
  {
    if p != [] && n.Dir? && |p| > 1 && p[0] in n.children {
      PutPut(n.children[p[0]], p[1..], u, v);
    }
  }

  /**
   * A `Put` at `p` replacing an existing directory by another directory keeps
   * every entry above `p` a directory with the same flag and the same names.
   */
  lemma {:induction false} PutKeepsAncestors(n: Node, p: Path, q: Path, v: Node)
    requires IsDir(n, p) && v.Dir? && IsPrefix(q, p) && q != p
    ensures IsDir(n, q) && IsDir(Put(n, p, v), q)
    ensures Get(Put(n, p, v), q).value.writable == Get(n, q).value.writable
    ensures Get(Put(n, p, v), q).value.children.Keys == Get(n, q).value.children.Keys
  {
    if q != [] {
      assert q[1..] == p[1..][..|q| - 1];
      PutKeepsAncestors(n.children[p[0]], p[1..], q[1..], v);
    } else if |p| > 1 {
      assert Get(n.children[p[0]], p[1..]).Some?;
    }
  }

  /** Every existing entry other than the root sits in a directory. */
  lemma ExistsInDir(n: Node, p: Path)
    requires Exists(n, p) && p != []
    ensures IsDir(n, Parent(p))
  {
    assert Parent(p) + [p[|p| - 1]] == p;
    GetAppend(n, Parent(p), [p[|p| - 1]]);
  }

  /** Removing below an existing directory `a` keeps `a` and changes only what is inside it. */
  lemma GetAfterRemoveBelow(n: Node, a: Path, b: Path)
    requires IsDir(n, a) && b != []
    ensures Remove(n, a + b) == Put(n, a, Remove(Get(n, a).value, b))
    ensures Get(Remove(n, a + b), a) == Some(Remove(Get(n, a).value, b))
  {
    RemoveAppend(n, a, b);
    if a != [] {
      ExistsInDir(n, a);
      GetPutSame(n, a, Remove(Get(n, a).value, b));
    }
  }

  /** A rename between two places inside the directory `a` is a change of the node at `a`. */
  lemma MovedInside(n: Node, a: Path, src: Path, dst: Path)
    requires IsDir(n, a) && src != [] && dst != [] && Exists(Get(n, a).value, src)
    ensures Exists(n, a + src)
    ensures Moved(n, a + src, a + dst) == Put(n, a, Moved(Get(n, a).value, src, dst))
  {
    var m := Get(n, a).value;
    GetAppend(n, a, src);
    GetAfterRemoveBelow(n, a, src);
    var removed := Remove(n, a + src);
    assert Exists(removed, a);
    PutAppend(removed, a, dst, Get(m, src).value);
    PutPut(n, a, Remove(m, src), Put(Remove(m, src), dst, Get(m, src).value));
  }

  /** A `Remove` at `p` leaves every path that is neither above nor below `p` alone. */
  lemma {:induction false} GetRemoveDisjoint(n: Node, p: Path, q: Path)
    requires !IsPrefix(p, q) && !IsPrefix(q, p)
    ensures Get(Remove(n, p), q) == Get(n, q)
  {
    if n.Dir? && |p| > 1 && p[0] == q[0] && p[0] in n.children {
      GetRemoveDisjoint(n.children[p[0]], p[1..], q[1..]);
    }
  }

  /** Nothing lies below a removed entry. */
  lemma {:induction false} GetRemoveBelow(n: Node, p: Path, q: Path)
    requires p != [] && IsPrefix(p, q)
    ensures !Exists(Remove(n, p), q)
  {
    assert q[0] == p[0];
    if n.Dir? && |p| > 1 && p[0] in n.children {
      GetRemoveBelow(n.children[p[0]], p[1..], q[1..]);
    }
  }

  /** Every entry above an existing entry is a directory. */
  lemma PrefixOfExistingIsDir(n: Node, q: Path, p: Path)
    requires IsPrefix(q, p) && q != p && Exists(n, p)
    ensures IsDir(n, q)
  {
    assert p == q + p[|q|..];
    GetAppend(n, q, p[|q|..]);
  }

  /** Nothing lies below an entry that is not a directory. */
  lemma NothingBelow(n: Node, p: Path, q: Path)
    requires IsPrefix(p, q) && q != p && !IsDir(n, p)
    ensures !Exists(n, q)
  {
    if Exists(n, q) {
      PrefixOfExistingIsDir(n, p, q);
    }
  }

  /** Below the place of a `Put` is what lies below the new node. */
  lemma GetPutBelow(n: Node, p: Path, v: Node, q: Path)
    requires p != [] && IsDir(n, Parent(p)) && IsPrefix(p, q)
    ensures Get(Put(n, p, v), q) == Get(v, q[|p|..])
  {
    GetPutSame(n, p, v);
    assert q == p + q[|p|..];
    GetAppend(Put(n, p, v), p, q[|p|..]);
  }

  /** Above the place of a `Put` inside an existing directory, every entry stays a directory. */
  lemma GetPutAbove(n: Node, p: Path, v: Node, q: Path)
    requires p != [] && IsDir(n, Parent(p)) && IsPrefix(q, p) && q != p
    ensures IsDir(n, q) && IsDir(Put(n, p, v), q)
  {
    if q != Parent(p) {
      PrefixOfExistingIsDir(n, q, Parent(p));
    }
    GetPutSame(n, p, v);
    PrefixOfExistingIsDir(Put(n, p, v), q, p);
  }

  /** Above a removed entry, every entry stays a directory. */
  lemma GetRemoveAbove(n: Node, p: Path, q: Path)
    requires p != [] && Exists(n, p) && IsPrefix(q, p) && q != p
    ensures IsDir(n, q) && IsDir(Remove(n, p), q)
  {
    PrefixOfExistingIsDir(n, q, p);
    ExistsInDir(n, p);
    var a := Parent(p);
    assert p == a + [p[|p| - 1]];
    GetAfterRemoveBelow(n, a, [p[|p| - 1]]);
    if q != a {
      assert IsPrefix(q, a);
      PrefixOfExistingIsDir(Remove(n, p), q, a);
    }
  }

  /**
   * Adding an entry at a free place `p` inside an existing directory: every
   * other existing entry still exists, every existing file keeps its content,
   * and no file appears outside `p`.
   */
  lemma PutFreshFrame(n: Node, p: Path, v: Node, q: Path)
    requires p != [] && IsDir(n, Parent(p)) && !Exists(n, p) && q != p
    ensures Exists(n, q) ==> Exists(Put(n, p, v), q)
    ensures IsFile(n, q) ==> Get(Put(n, p, v), q) == Get(n, q)
    ensures !IsPrefix(p, q) && IsFile(Put(n, p, v), q) ==> Get(Put(n, p, v), q) == Get(n, q)
    ensures IsPrefix(p, q) ==> Get(Put(n, p, v), q) == Get(v, q[|p|..])
  {
    if IsPrefix(q, p) {
      GetPutAbove(n, p, v, q);
    } else if IsPrefix(p, q) {
      NothingBelow(n, p, q);
      GetPutBelow(n, p, v, q);
    } else {
      GetPutDisjoint(n, p, q, v);
    }
  }

  /**
   * Removing the file at `p`: every other existing entry still exists, and
   * every other file keeps its content.
   */
  lemma RemoveFileFrame(n: Node, p: Path, q: Path)
    requires p != [] && IsFile(n, p) && q != p
    ensures Exists(n, q) ==> Exists(Remove(n, p), q)
    ensures IsFile(n, q) ==> Get(Remove(n, p), q) == Get(n, q)
    ensures IsFile(Remove(n, p), q) ==> Get(Remove(n, p), q) == Get(n, q)
  {
    if IsPrefix(q, p) {
      GetRemoveAbove(n, p, q);
    } else if IsPrefix(p, q) {
      NothingBelow(n, p, q);
      GetRemoveBelow(n, p, q);
    } else {
      GetRemoveDisjoint(n, p, q);
    }
  }

  /**
   * `os.makedirs` only adds folders: what existed still exists, files keep
   * their content, and no new file appears.
   */
  lemma {:induction false} MakeDirsFrame(n: Node, p: Path, k: nat, q: Path)
    requires k <= |p|
    ensures Exists(n, q) ==> Exists(MakeDirsFrom(n, p, k).0, q)
    ensures IsFile(n, q) ==> Get(MakeDirsFrom(n, p, k).0, q) == Get(n, q)
    ensures IsFile(MakeDirsFrom(n, p, k).0, q) ==> Get(MakeDirsFrom(n, p, k).0, q) == Get(n, q)
    decreases |p| - k
  {
    if IsDir(n, p[..k]) && k < |p| {
      var step := p[..k + 1];
      assert Parent(step) == p[..k];
      match Get(n, step)
      case Some(File(_)) =>
      case Some(Dir(_, _)) => MakeDirsFrame(n, p, k + 1, q);
      case None =>
        if IsWritableDir(n, p[..k]) {
          var emptyDir := Dir(map[], true);
          var n' := Put(n, step, emptyDir);
          MakeDirsFrame(n', p, k + 1, q);
          if q == step {
            GetPutSame(n, step, emptyDir);
          } else {
            PutFreshFrame(n, step, emptyDir, q);
            if IsPrefix(step, q) {
              assert Get(emptyDir, q[|step|..]).None?;
            }
          }
        }
    }
  }

  /**
   * `os.makedirs(p)` leaves alone every path that is not a folder along `p`:
   * it only creates empty folders where nothing was.
   */
  lemma {:induction false} MakeDirsKeeps(n: Node, p: Path, k: nat, q: Path)
    requires k <= |p| && !IsPrefix(q, p)
    ensures Get(MakeDirsFrom(n, p, k).0, q) == Get(n, q)
    decreases |p| - k
  {
    if IsDir(n, p[..k]) && k < |p| {
      var step := p[..k + 1];
      assert Parent(step) == p[..k];
      match Get(n, step)
      case Some(File(_)) =>
      case Some(Dir(_, _)) => MakeDirsKeeps(n, p, k + 1, q);
      case None =>
        if IsWritableDir(n, p[..k]) {
          var emptyDir := Dir(map[], true);
          MakeDirsKeeps(Put(n, step, emptyDir), p, k + 1, q);
          assert !IsPrefix(q, step);
          if IsPrefix(step, q) {
            NothingBelow(n, step, q);
            GetPutBelow(n, step, emptyDir, q);
            assert Get(emptyDir, q[|step|..]).None?;
          } else {
            GetPutDisjoint(n, step, q, emptyDir);
          }
        }
    }
  }

  /**
   * `os.path.splitext` for a name without '/': the extension runs from the
   * last '.' to the end, provided some character other than '.' comes before
   * that '.'; otherwise there is no extension.
   */
  function SplitExt(name: string): (parts: (string, string))
    ensures parts.0 + parts.1 == name
    ensures parts.1 == [] || (parts.1[0] == '.' && '.' !in parts.1[1..])
    ensures parts.1 != [] <==> '.' in name && exists i :: 0 <= i < LastIndex(name, '.') && name[i] != '.'
  {
    if '.' in name && exists i :: 0 <= i < LastIndex(name, '.') && name[i] != '.' then
      var d := LastIndex(name, '.');
      assert name[..d] + name[d..] == name;
      (name[..d], name[d..])
    else (name, "")
  }

  /** `os.path.join` of a path, with '/' between the components, for messages. */
  function PathText(p: Path): string
  {
    if p == [] then "" else if |p| == 1 then p[0] else p[0] + "/" + PathText(p[1..])
  }

  /** `os.makedirs(p, exist_ok=True)`, from the `k`-th component on. */
  function MakeDirsFrom(n: Node, p: Path, k: nat): (r: (Node, bool))
    requires k <= |p|
    ensures r.1 ==> IsDir(r.0, p)
    decreases |p| - k
  {
    if !IsDir(n, p[..k]) then (n, false)
    else if k == |p| then
      assert p[..k] == p;
      (n, true)
    else
      var q := p[..k + 1];
      assert Parent(q) == p[..k];
      match Get(n, q)
      case Some(File(_)) => (n, false)
      case Some(Dir(_, _)) => MakeDirsFrom(n, p, k + 1)
      case None =>
        if IsWritableDir(n, p[..k]) then
          GetPutSame(n, q, Dir(map[], true));
          MakeDirsFrom(Put(n, q, Dir(map[], true)), p, k + 1)
        else (n, false)
  }

  /** The walk `os.walk` yields for one folder: the folder and the names of the files directly inside it. */
  datatype WalkEntry = WalkEntry(folder: Path, files: seq<string>)

  /**
   * The file system the organizer works on: one tree, changed in place by the
   * operations below. A failed operation reports `false` and changes nothing,
   * except `MakeDirs`, which keeps the folders it created before failing, as
   * `os.makedirs` does, and `Move`, whose copy fallback can land before its
   * unlink fails.
   */
  class FileSystem {
    var root: Node

    constructor (root: Node)
      ensures this.root == root
    {
      this.root := root;
    }

    /**
     * `os.makedirs(p, exist_ok=True)`: create each missing folder along `p`,
     * failing on a file in the way or on a folder that cannot be written.
     */
    method MakeDirs(p: Path) returns (ok: bool)
      modifies this
      ensures (root, ok) == MakeDirsFrom(old(root), p, 0)
      ensures ok ==> IsDir(root, p)
    {
      if !root.Dir? {
        ok := false;
        assert p[..0] == [];
        return;
      }
      assert p[..0] == [];
      var k := 0;
      while k < |p|
        invariant 0 <= k <= |p|
        invariant IsDir(root, p[..k])
        invariant MakeDirsFrom(old(root), p, 0) == MakeDirsFrom(root, p, k)
        decreases |p| - k
      {
        var q := p[..k + 1];
        assert Parent(q) == p[..k];
        var existing := Get(root, q);
        if existing.Some? && existing.value.File? {
          ok := false;
          return;
        } else if existing.None? {
          if !IsWritableDir(root, p[..k]) {
            ok := false;
            return;
          }
          GetPutSame(root, q, Dir(map[], true));
          root := Put(root, q, Dir(map[], true));
        }
        k := k + 1;
      }
      assert p[..k] == p;
      ok := true;
    }

    /**
     * `shutil.copy2(src, dst)` onto a name that is not taken: fails unless
     * `src` is a file and the folder of `dst` is a writable folder.
     */
    method Copy(src: Path, dst: Path) returns (ok: bool)
      requires !Exists(root, dst)
      modifies this
      ensures ok <==> CanCopy(old(root), src, dst)
      ensures root == if ok then Put(old(root), dst, Get(old(root), src).value) else old(root)
    {
      ok := CanCopy(root, src, dst);
      if ok {
        root := Put(root, dst, Get(root, src).value);
      }
    }

    /**
     * `shutil.move(src, dst)` onto a name that is not taken: a rename of the
     * whole entry. Fails when `src` is missing, when either folder cannot be
     * written, or when `dst` lies inside `src`; a failure that is only the
     * unlink of a copied source file leaves the copy behind.
     */
    method Move(src: Path, dst: Path) returns (ok: bool)
      requires !Exists(root, dst)
      modifies this
      ensures ok <==> CanMove(old(root), src, dst)
      ensures root == if ok then Moved(old(root), src, dst)
                      else if CopiesOnFailedMove(old(root), src, dst) then Put(old(root), dst, Get(old(root), src).value)
                      else old(root)
    {
      ok := CanMove(root, src, dst);
      if ok {
        root := Moved(root, src, dst);
      } else if CopiesOnFailedMove(root, src, dst) {
        root := Put(root, dst, Get(root, src).value);
      }
    }

    /** `os.rmdir(p)`: only an empty folder inside a writable folder can be removed. */
    method RemoveDir(p: Path) returns (ok: bool)
      modifies this
      ensures ok <==> p != [] && IsDir(old(root), p) && Get(old(root), p).value.children == map[]
                      && IsWritableDir(old(root), Parent(p))
      ensures root == if ok then Remove(old(root), p) else old(root)
    {
      ok := p != [] && IsDir(root, p) && Get(root, p).value.children == map[] && IsWritableDir(root, Parent(p));
      if ok {
        root := Remove(root, p);
      }
    }

    /** `os.listdir(p)` of a folder: its names, each once, in an order the model leaves open. */
    method ListDir(p: Path) returns (names: seq<string>)
      requires IsDir(root, p)
      ensures forall x :: x in names <==> x in Children(root, p)
      ensures forall i, j :: 0 <= i < j < |names| ==> names[i] != names[j]
    {
      var rest := Children(root, p);
      names := [];
      while rest != {}
        invariant forall x :: x in Children(root, p) <==> x in names || x in rest
        invariant forall x :: x in names ==> x !in rest
        invariant forall i, j :: 0 <= i < j < |names| ==> names[i] != names[j]
        decreases |rest|
      {
        var x :| x in rest;
        names := names + [x];
        rest := rest - {x};
      }
    }
  }
}

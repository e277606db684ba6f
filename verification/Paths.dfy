/** Path names of kernel/fs.c: skipelem() and namex(). Reference counts and
    locks of the inodes on the way are not modelled here. */
module Paths {
  import opened Blocks
  import opened FsLayout
  import opened FsEffects
  import opened FsCode
  import opened Directory

  const SLASH: byte := 47
  const ROOTINO: nat := 1

  function StripSlashes(path: seq<byte>): seq<byte> {
    if path != [] && path[0] == SLASH then StripSlashes(path[1..]) else path
  }

  /** Bytes up to the next slash or the end. */
  function ElemLen(path: seq<byte>): (n: nat)
    ensures n <= |path|
  {
    if path == [] || path[0] == SLASH then 0 else 1 + ElemLen(path[1..])
  }

  lemma {:induction false} StripShortens(path: seq<byte>)
    ensures |StripSlashes(path)| <= |path|
    ensures StripSlashes(path) == [] || StripSlashes(path)[0] != SLASH
    ensures StripSlashes(StripSlashes(path)) == StripSlashes(path)
  {
    if path != [] && path[0] == SLASH { StripShortens(path[1..]); }
  }

  /** The elements of a path: what stands between slashes, cut to DIRSIZ. */
  function PathElems(path: seq<byte>): seq<seq<byte>>
    decreases |path|
  {
    StripShortens(path);
    var p := StripSlashes(path);
    if p == [] then [] else [Cut(p[..ElemLen(p)])] + PathElems(p[ElemLen(p)..])
  }

  lemma PathElemsStrip(path: seq<byte>)
    ensures PathElems(StripSlashes(path)) == PathElems(path)
  {
    StripShortens(path);
  }

  lemma {:induction false} StripFrom(path: seq<byte>, i: nat, j: nat)
    requires i <= j <= |path| && forall k :: i <= k < j ==> path[k] == SLASH
    requires j == |path| || path[j] != SLASH
    ensures StripSlashes(path[i..]) == path[j..]
    decreases j - i
  {
    if i < j {
      StripFrom(path, i + 1, j);
      assert path[i..][1..] == path[i + 1..];
    }
  }

  lemma {:induction false} ElemFrom(path: seq<byte>, i: nat, j: nat)
    requires i <= j <= |path| && forall k :: i <= k < j ==> path[k] != SLASH
    requires j == |path| || path[j] == SLASH
    ensures ElemLen(path[i..]) == j - i
    decreases j - i
  {
    if i < j {
      ElemFrom(path, i + 1, j);
      assert path[i..][1..] == path[i + 1..];
    }
  }

  lemma {:induction false} CutNoZero(s: seq<byte>, n: nat)
    requires 0 !in s
    ensures Cut(s, n) == if |s| >= n then s[..n] else s
    decreases n
  {
    if n > 0 && s != [] {
      CutNoZero(s[1..], n - 1);
      assert forall x :: x in s[1..] ==> x in s;
    }
  }

  lemma RawElem(path: seq<byte>, s: nat, e: nat)
    requires s < e <= |path|
    requires StripSlashes(path) == path[s..] && ElemLen(path[s..]) == e - s
    ensures PathElems(path) == [Cut(path[s..e])] + PathElems(path[e..])
  {
    var p := path[s..];
    assert p[..e - s] == path[s..e] && p[e - s..] == path[e..];
  }

  lemma CutElem(path: seq<byte>, s: nat, e: nat)
    requires s <= e <= |path| && 0 !in path
    ensures Cut(path[s..e]) == if e - s >= DIRSIZ then path[s..s + DIRSIZ] else path[s..e]
  {
    forall x | x in path[s..e] ensures x != 0 { assert x in path; }
    CutNoZero(path[s..e], DIRSIZ);
    if e - s >= DIRSIZ { assert path[s..e][..DIRSIZ] == path[s..s + DIRSIZ]; }
  }

  lemma ShortName(path: seq<byte>, name: seq<byte>)
    requires 0 !in path && |name| <= DIRSIZ && forall x :: x in name ==> x in path
    ensures Cut(name) == name
  {
    CutNoZero(name, DIRSIZ);
  }

  lemma NoElems(path: seq<byte>)
    requires path == [] || path[0] != SLASH
    ensures path == [] <==> PathElems(path) == []
  {
  }

  /** Slashes up to s, an element up to e, slashes up to i. */
  ghost predicate Cutting(path: seq<byte>, s: nat, e: nat, i: nat) {
    && s < e <= i <= |path| && (forall k :: 0 <= k < s ==> path[k] == SLASH)
    && (forall k :: s <= k < e ==> path[k] != SLASH) && (e < |path| ==> path[e] == SLASH)
    && (forall k :: e <= k < i ==> path[k] == SLASH) && (i < |path| ==> path[i] != SLASH)
  }

  lemma CutPath(path: seq<byte>, s: nat, e: nat, i: nat, name: seq<byte>)
    requires 0 !in path && Cutting(path, s, e, i)
    requires name == if e - s >= DIRSIZ then path[s..s + DIRSIZ] else path[s..e]
    ensures PathElems(path) == [name] + PathElems(path[i..]) && Cut(name) == name
    ensures path[i..] == [] <==> PathElems(path[i..]) == []
  {
    assert path[0..] == path;
    StripFrom(path, 0, s);
    ElemFrom(path, s, e);
    StripFrom(path, e, i);
    RawElem(path, s, e);
    CutElem(path, s, e);
    PathElemsStrip(path[e..]);
    ShortName(path, name);
    NoElems(path[i..]);
  }

  lemma AllSlashes(path: seq<byte>)
    requires forall k :: 0 <= k < |path| ==> path[k] == SLASH
    ensures PathElems(path) == []
  {
    assert path[0..] == path;
    StripFrom(path, 0, |path|);
  }

  /** skipelem(): the first element and the path after it, if there is one. */
  method Skipelem(path: seq<byte>) returns (ok: bool, rest: seq<byte>, name: seq<byte>)
    requires 0 !in path
    ensures ok <==> PathElems(path) != []
    ensures ok ==> PathElems(path) == [name] + PathElems(rest)
    ensures ok ==> Cut(name) == name
    ensures ok ==> |rest| < |path| && 0 !in rest && (rest == [] <==> PathElems(rest) == [])
  {
    var i := 0;
    while i < |path| && path[i] == SLASH
      invariant i <= |path| && forall k :: 0 <= k < i ==> path[k] == SLASH
    {
      i := i + 1;
    }
    if i == |path| {
      AllSlashes(path);
      return false, [], [];
    }
    var s := i;
    while i < |path| && path[i] != SLASH
      invariant s <= i <= |path| && forall k :: s <= k < i ==> path[k] != SLASH
    {
      i := i + 1;
    }
    var e := i;
    name := if e - s >= DIRSIZ then path[s..s + DIRSIZ] else path[s..e];
    while i < |path| && path[i] == SLASH
      invariant e <= i <= |path| && forall k :: e <= k < i ==> path[k] == SLASH
    {
      i := i + 1;
    }
    CutPath(path, s, e, i, name);
    return true, path[i..], name;
  }

  // ----- namex -------------------------------------------------------------------

  /** The inode a name stands for in directory d, 0 if none. */
  ghost function LookupIn(blocks: Disk, inodes: map<nat, Inode>, d: nat, name: seq<byte>): nat
    requires d in inodes && inodes[d].size <= MAXBYTES
  {
    var m := DirMap(Parse(FileBytes(blocks, inodes[d])));
    if name in m then m[name] else 0
  }

  /** Every directory is well formed and names existing inodes. */
  ghost predicate TreeOk(blocks: Disk, inodes: map<nat, Inode>, dirs: set<nat>) {
    forall d :: d in dirs ==>
      && d in inodes && inodes[d].size <= MAXBYTES && inodes[d].size % 16 == 0
      && forall name :: LookupIn(blocks, inodes, d, name) == 0 || LookupIn(blocks, inodes, d, name) in inodes
  }

  /** Look the elements up one after the other, starting from ip. */
  ghost function Walk(blocks: Disk, inodes: map<nat, Inode>, dirs: set<nat>, ip: nat, elems: seq<seq<byte>>): nat
    requires TreeOk(blocks, inodes, dirs)
    decreases |elems|
  {
    if elems == [] then ip
    else if ip !in dirs || LookupIn(blocks, inodes, ip, elems[0]) == 0 then 0
    else Walk(blocks, inodes, dirs, LookupIn(blocks, inodes, ip, elems[0]), elems[1..])
  }

  /** What namex()'s loop will return from ip with `elems` still to go. */
  ghost function Target(blocks: Disk, inodes: map<nat, Inode>, dirs: set<nat>, ip: nat, elems: seq<seq<byte>>,
                        parent: bool): nat
    requires TreeOk(blocks, inodes, dirs)
    decreases |elems|
  {
    if elems == [] then (if parent then 0 else ip)
    else if ip !in dirs then 0
    else if parent && |elems| == 1 then ip
    else if LookupIn(blocks, inodes, ip, elems[0]) == 0 then 0
    else Target(blocks, inodes, dirs, LookupIn(blocks, inodes, ip, elems[0]), elems[1..], parent)
  }

  lemma TargetStep(blocks: Disk, inodes: map<nat, Inode>, dirs: set<nat>, ip: nat, name: seq<byte>,
                   more: seq<seq<byte>>, parent: bool)
    requires TreeOk(blocks, inodes, dirs)
    ensures Target(blocks, inodes, dirs, ip, [name] + more, parent) ==
              if ip !in dirs then 0
              else if parent && more == [] then ip
              else if LookupIn(blocks, inodes, ip, name) == 0 then 0
              else Target(blocks, inodes, dirs, LookupIn(blocks, inodes, ip, name), more, parent)
  {
    assert ([name] + more)[1..] == more;
  }

  /** namei() is the fold of lookups over all path elements; nameiparent() is the
      fold over all but the last, provided it ends at a directory. */
  lemma {:induction false} TargetIsWalk(blocks: Disk, inodes: map<nat, Inode>, dirs: set<nat>, ip: nat,
                                        elems: seq<seq<byte>>, parent: bool)
    requires TreeOk(blocks, inodes, dirs) && 0 !in dirs
    ensures
      var n := |elems|;
      Target(blocks, inodes, dirs, ip, elems, parent) ==
        if !parent then Walk(blocks, inodes, dirs, ip, elems)
        else if n == 0 then 0
        else
          var d := Walk(blocks, inodes, dirs, ip, elems[..n - 1]);
          if d in dirs then d else 0
    decreases |elems|
  {
    var n := |elems|;
    if n > 0 && ip in dirs && LookupIn(blocks, inodes, ip, elems[0]) != 0 && !(parent && n == 1) {
      TargetIsWalk(blocks, inodes, dirs, LookupIn(blocks, inodes, ip, elems[0]), elems[1..], parent);
      if parent { assert elems[..n - 1][1..] == elems[1..][..n - 2]; }
    }
  }

  /** namex(); 0 stands for failure. nameiparent() leaves the last element of the
      path in `name`. */
  method Namex(fs: FileSys, dirs: set<nat>, cwd: nat, path: seq<byte>, nameiparent: bool)
    returns (ip: nat, name: seq<byte>)
    requires fs.Consistent() && TreeOk(fs.blocks, fs.inodes, dirs)
    requires 0 !in path && ROOTINO in fs.inodes && cwd in fs.inodes && cwd != 0
    modifies fs`blocks, fs`inodes, fs`owner, fs`logged
    ensures fs.blocks == old(fs.blocks) && fs.inodes == old(fs.inodes)
    ensures ip == Target(fs.blocks, fs.inodes, dirs, StartOf(path, cwd), PathElems(path), nameiparent)
    ensures nameiparent && ip != 0 ==> PathElems(path) != [] && name == PathElems(path)[|PathElems(path)| - 1]
  {
    ip := StartOf(path, cwd);
    ghost var target := Target(fs.blocks, fs.inodes, dirs, ip, PathElems(path), nameiparent);
    ghost var left := PathElems(path);
    var ok, rest;
    ok, rest, name := Skipelem(path);
    while ok
      invariant fs.blocks == old(fs.blocks) && fs.inodes == old(fs.inodes) && fs.owner == old(fs.owner)
      invariant fs.logged == old(fs.logged)
      invariant ip in fs.inodes && target == Target(fs.blocks, fs.inodes, dirs, ip, left, nameiparent)
      invariant ok <==> left != []
      invariant ok ==> left == [name] + PathElems(rest) && Cut(name) == name
      invariant ok ==> 0 !in rest && (rest == [] <==> PathElems(rest) == [])
      invariant SameLast(left, PathElems(path))
      decreases if ok then |rest| + 1 else 0
    {
      ghost var more := PathElems(rest);
      TargetStep(fs.blocks, fs.inodes, dirs, ip, name, more, nameiparent);
      if ip !in dirs {
        return 0, name;
      }
      if nameiparent && rest == [] {
        return;
      }
      var next := Lookup(fs, dirs, ip, name);
      if next == 0 {
        return 0, name;
      }
      SameLastTail(name, more, PathElems(path));
      ip, left := next, more;
      ok, rest, name := Skipelem(rest);
    }
    if nameiparent {
      return 0, name;
    }
  }

  /** The suffix xs of ys ends as ys does. */
  ghost predicate SameLast(xs: seq<seq<byte>>, ys: seq<seq<byte>>) {
    xs != [] ==> ys != [] && xs[|xs| - 1] == ys[|ys| - 1]
  }

  lemma SameLastTail(x: seq<byte>, more: seq<seq<byte>>, ys: seq<seq<byte>>)
    requires SameLast([x] + more, ys)
    ensures SameLast(more, ys)
  {
  }

  /** dirlookup() on one of the directories. */
  method Lookup(fs: FileSys, ghost dirs: set<nat>, d: nat, name: seq<byte>) returns (inum: nat)
    requires fs.Consistent() && TreeOk(fs.blocks, fs.inodes, dirs) && d in dirs && Cut(name) == name
    modifies fs`blocks, fs`inodes, fs`owner, fs`logged
    ensures fs.blocks == old(fs.blocks) && fs.inodes == old(fs.inodes) && fs.owner == old(fs.owner)
    ensures fs.logged == old(fs.logged)
    ensures inum == LookupIn(fs.blocks, fs.inodes, d, name) && (inum != 0 ==> inum in fs.inodes)
  {
    var k;
    inum, k := Dirlookup(fs, d, name);
  }

  function StartOf(path: seq<byte>, cwd: nat): nat {
    if path != [] && path[0] == SLASH then ROOTINO else cwd
  }

  /** namei() */
  method Namei(fs: FileSys, dirs: set<nat>, cwd: nat, path: seq<byte>) returns (ip: nat)
    requires fs.Consistent() && TreeOk(fs.blocks, fs.inodes, dirs) && 0 !in dirs
    requires 0 !in path && ROOTINO in fs.inodes && cwd in fs.inodes && cwd != 0
    modifies fs`blocks, fs`inodes, fs`owner, fs`logged
    ensures fs.blocks == old(fs.blocks) && fs.inodes == old(fs.inodes)
    ensures ip == Walk(fs.blocks, fs.inodes, dirs, StartOf(path, cwd), PathElems(path))
  {
    var name;
    ip, name := Namex(fs, dirs, cwd, path, false);
    TargetIsWalk(fs.blocks, fs.inodes, dirs, StartOf(path, cwd), PathElems(path), false);
  }

  /** nameiparent() */
  method Nameiparent(fs: FileSys, dirs: set<nat>, cwd: nat, path: seq<byte>) returns (ip: nat, name: seq<byte>)
    requires fs.Consistent() && TreeOk(fs.blocks, fs.inodes, dirs) && 0 !in dirs
    requires 0 !in path && ROOTINO in fs.inodes && cwd in fs.inodes && cwd != 0
    modifies fs`blocks, fs`inodes, fs`owner, fs`logged
    ensures fs.blocks == old(fs.blocks) && fs.inodes == old(fs.inodes)
    ensures
      var elems := PathElems(path);
      if elems == [] then ip == 0
      else
        var d := Walk(fs.blocks, fs.inodes, dirs, StartOf(path, cwd), elems[..|elems| - 1]);
        if d in dirs then ip == d && name == elems[|elems| - 1] else ip == 0
  {
    ip, name := Namex(fs, dirs, cwd, path, true);
    TargetIsWalk(fs.blocks, fs.inodes, dirs, StartOf(path, cwd), PathElems(path), true);
  }
}

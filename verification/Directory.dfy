/** Directories and path names of kernel/fs.c: a directory is a file of 16-byte
    entries, read and written with readi() and writei(). */
module Directory {
  import opened Blocks
  import opened FsLayout
  import opened FsEffects
  import opened FsCode

  const DIRSIZ: nat := 14

  // ----- Names -----------------------------------------------------------------

  /** Byte i of a C string. */
  function At(s: seq<byte>, i: nat): byte {
    if i < |s| then s[i] else 0
  }

  /** The part of a C string that counts as a name: up to DIRSIZ bytes. */
  function Cut(s: seq<byte>, n: nat := DIRSIZ): (r: seq<byte>)
    ensures |r| <= n && 0 !in r
  {
    if n == 0 || s == [] || s[0] == 0 then [] else [s[0]] + Cut(s[1..], n - 1)
  }

  /** strncmp(): the sign of the result is that of the first difference. */
  function Strncmp(p: seq<byte>, q: seq<byte>, n: nat): int
    decreases n
  {
    if n == 0 then 0
    else if At(p, 0) != 0 && At(p, 0) == At(q, 0) then Strncmp(p[1..], q[1..], n - 1)
    else At(p, 0) as int - At(q, 0) as int
  }

  /** namecmp() finds names equal exactly if they agree once cut to DIRSIZ. */
  lemma {:induction false} StrncmpIsEquality(p: seq<byte>, q: seq<byte>, n: nat)
    ensures Strncmp(p, q, n) == 0 <==> Cut(p, n) == Cut(q, n)
    decreases n
  {
    if n == 0 { return; }
    assert forall s: seq<byte> :: At(s, 0) != 0 ==> |Cut(s, n)| > 0 && Cut(s, n)[0] == At(s, 0);
    if At(p, 0) != 0 && At(p, 0) == At(q, 0) {
      StrncmpIsEquality(p[1..], q[1..], n - 1);
      assert Cut(p, n) == [p[0]] + Cut(p[1..], n - 1);
      assert Cut(q, n)[1..] == Cut(q[1..], n - 1) && Cut(p, n)[1..] == Cut(p[1..], n - 1);
    }
  }

  /** strncpy(): the name followed by zeros. */
  function Strncpy(t: seq<byte>, n: nat): (r: seq<byte>)
    ensures |r| == n
  {
    Cut(t, n) + seq(n - |Cut(t, n)|, _ => 0)
  }

  lemma {:induction false} CutPadded(s: seq<byte>, z: seq<byte>, n: nat)
    requires |s| <= n && 0 !in s && forall i :: 0 <= i < |z| ==> z[i] == 0
    ensures Cut(s + z, n) == s
    decreases n
  {
    if s != [] {
      CutPadded(s[1..], z, n - 1);
      assert (s + z)[1..] == s[1..] + z;
    }
  }

  /** What strncpy() stores reads back as the same name. */
  lemma StoredName(t: seq<byte>)
    ensures Cut(Strncpy(t, DIRSIZ)) == Cut(t)
  {
    CutPadded(Cut(t), seq(DIRSIZ - |Cut(t)|, _ => 0), DIRSIZ);
  }

  // ----- Entries ---------------------------------------------------------------

  /** A struct dirent, its name cut at the first zero. */
  datatype Entry = Entry(inum: nat, name: seq<byte>)

  function ParseEntry(e: seq<byte>): Entry
    requires |e| == 16
  {
    var lo: int, hi: int := e[0], e[1];
    Entry(lo + 0x100 * hi, Cut(e[2..]))
  }

  /** The bytes of a struct dirent. */
  function Dirent(name: seq<byte>, inum: nat): (r: seq<byte>)
    requires inum < 0x1_0000
    ensures |r| == 16
  {
    [inum % 0x100, inum / 0x100] + Strncpy(name, DIRSIZ)
  }

  lemma DirentReads(name: seq<byte>, inum: nat)
    requires inum < 0x1_0000
    ensures ParseEntry(Dirent(name, inum)) == Entry(inum, Cut(name))
  {
    assert Dirent(name, inum)[2..] == Strncpy(name, DIRSIZ);
    StoredName(name);
  }

  function EntryBytes(c: seq<byte>, k: nat): (e: seq<byte>)
    requires 16 * k + 16 <= |c|
    ensures |e| == 16
  {
    c[16 * k..16 * k + 16]
  }

  /** A directory's contents as a list of entries. */
  function Parse(c: seq<byte>): (es: seq<Entry>)
    ensures |es| == |c| / 16
  {
    seq(|c| / 16, k requires 0 <= k < |c| / 16 => ParseEntry(EntryBytes(c, k)))
  }

  /** The map a list of entries stands for: unused entries count for nothing,
      and of two entries with one name the first counts. */
  function DirMap(es: seq<Entry>): map<seq<byte>, nat> {
    if es == [] then map[]
    else
      var m, e := DirMap(es[..|es| - 1]), es[|es| - 1];
      if e.inum == 0 || e.name in m then m else m[e.name := e.inum]
  }

  ghost predicate UniqueNames(es: seq<Entry>) {
    forall i, j :: 0 <= i < j < |es| && es[i].inum != 0 && es[j].inum != 0 ==> es[i].name != es[j].name
  }

  /** A name is in the map exactly if some entry in use carries it. */
  lemma {:induction false} DirMapKeys(es: seq<Entry>, name: seq<byte>)
    ensures name in DirMap(es) <==> exists i :: 0 <= i < |es| && es[i].inum != 0 && es[i].name == name
  {
    if es != [] {
      var n := |es| - 1;
      DirMapKeys(es[..n], name);
      if i :| 0 <= i < |es| && es[i].inum != 0 && es[i].name == name {
        if i < n { assert es[..n][i] == es[i]; }
      }
    }
  }

  /** Splicing one entry's bytes replaces or appends that entry. */
  lemma SpliceEntry(c: seq<byte>, k: nat, e: seq<byte>)
    requires |c| % 16 == 0 && k <= |c| / 16 && |e| == 16
    ensures |Splice(c, 16 * k, e)| % 16 == 0
    ensures Parse(Splice(c, 16 * k, e)) ==
              if k < |c| / 16 then Parse(c)[k := ParseEntry(e)] else Parse(c) + [ParseEntry(e)]
  {
    var c' := Splice(c, 16 * k, e);
    assert EntryBytes(c', k) == e;
    forall i | 0 <= i < |c| / 16 && i != k ensures EntryBytes(c', i) == EntryBytes(c, i) {
    }
  }

  /** Filling an unused entry with a new name adds that name and nothing else. */
  lemma {:induction false} InsertEntry(es: seq<Entry>, k: nat, e: Entry)
    requires k < |es| && es[k].inum == 0 && e.inum != 0 && e.name !in DirMap(es)
    ensures DirMap(es[k := e]) == DirMap(es)[e.name := e.inum]
  {
    var n := |es| - 1;
    assert es[k := e][..n] == if k < n then es[..n][k := e] else es[..n];
    if k < n {
      InsertEntry(es[..n], k, e);
    }
  }

  lemma AppendEntry(es: seq<Entry>, e: Entry)
    requires e.inum != 0 && e.name !in DirMap(es)
    ensures DirMap(es + [e]) == DirMap(es)[e.name := e.inum]
  {
    assert (es + [e])[..|es|] == es;
  }

  /** Names stay unique when a new one is entered. */
  lemma InsertUnique(es: seq<Entry>, k: nat, e: Entry)
    requires k <= |es| && UniqueNames(es) && e.name !in DirMap(es)
    ensures UniqueNames(if k < |es| then es[k := e] else es + [e])
  {
    DirMapKeys(es, e.name);
  }

  lemma RemoveUnique(es: seq<Entry>, k: nat, z: Entry)
    requires k < |es| && UniqueNames(es) && z.inum == 0
    ensures UniqueNames(es[k := z])
  {
  }

  /** Zeroing an entry whose name no other entry carries removes that name and
      nothing else. */
  lemma {:induction false} RemoveEntry(es: seq<Entry>, k: nat, z: Entry)
    requires k < |es| && es[k].inum != 0 && z.inum == 0
    requires forall i :: 0 <= i < |es| && i != k && es[i].inum != 0 ==> es[i].name != es[k].name
    ensures DirMap(es[k := z]) == DirMap(es) - {es[k].name}
  {
    var n := |es| - 1;
    var es' := es[..n];
    if k < n {
      assert es[k := z][..n] == es'[k := z];
      assert es'[k] == es[k];
      RemoveEntry(es', k, z);
    } else {
      assert es[k := z][..n] == es';
      DirMapKeys(es', es[k].name);
    }
  }

  lemma ZeroedEntry(es: seq<Entry>, k: nat, bytes: seq<byte>)
    requires k < |es| && es[k].inum != 0 && UniqueNames(es)
    requires |bytes| == 16 && forall i :: 0 <= i < 16 ==> bytes[i] == 0
    ensures
      var es' := es[k := ParseEntry(bytes)];
      DirMap(es') == DirMap(es) - {es[k].name} && UniqueNames(es')
  {
    RemoveEntry(es, k, ParseEntry(bytes));
    RemoveUnique(es, k, ParseEntry(bytes));
  }

  /** The first entry in use with a given name is the one the map holds. */
  lemma {:induction false} FirstMatch(es: seq<Entry>, k: nat)
    requires k < |es| && es[k].inum != 0
    requires forall i :: 0 <= i < k && es[i].inum != 0 ==> es[i].name != es[k].name
    ensures es[k].name in DirMap(es) && DirMap(es)[es[k].name] == es[k].inum
  {
    var n := |es| - 1;
    if k < n {
      assert es[..n][k] == es[k];
      FirstMatch(es[..n], k);
    } else {
      DirMapKeys(es[..n], es[k].name);
    }
  }

  // ----- The code --------------------------------------------------------------

  /** The entries of directory dp. */
  ghost function EntriesOf(fs: FileSys, dp: nat): seq<Entry>
    requires dp in fs.inodes && fs.inodes[dp].size <= MAXBYTES
    reads fs
  {
    Parse(FileBytes(fs.blocks, fs.inodes[dp]))
  }

  ghost predicate GoodDir(fs: FileSys, dp: nat)
    reads fs
  {
    fs.Consistent() && dp in fs.inodes && fs.inodes[dp].size <= MAXBYTES && fs.inodes[dp].size % 16 == 0
  }

  /** readi() of one entry; it never comes back short. */
  method ReadEntry(fs: FileSys, dp: nat, k: nat) returns (e: Entry)
    requires GoodDir(fs, dp) && 16 * k < fs.inodes[dp].size
    modifies fs`blocks, fs`inodes, fs`owner, fs`logged
    ensures fs.blocks == old(fs.blocks) && fs.inodes == old(fs.inodes) && fs.owner == old(fs.owner)
    ensures fs.logged == old(fs.logged)
    ensures k < |EntriesOf(fs, dp)| && e == EntriesOf(fs, dp)[k] && Cut(e.name) == e.name
  {
    var r, bytes := fs.Readi(dp, 16 * k, 16, 16);
    assert r == 16 && bytes == EntryBytes(FileBytes(fs.blocks, fs.inodes[dp]), k);
    e := ParseEntry(bytes);
    CutPadded(e.name, [], DIRSIZ);
    assert e.name + [] == e.name;
  }

  /** dirlookup(): the inode number of `name`, and the entry that holds it. */
  method Dirlookup(fs: FileSys, dp: nat, name: seq<byte>) returns (inum: nat, k: nat)
    requires GoodDir(fs, dp)
    modifies fs`blocks, fs`inodes, fs`owner, fs`logged
    ensures fs.blocks == old(fs.blocks) && fs.inodes == old(fs.inodes) && fs.owner == old(fs.owner)
    ensures fs.logged == old(fs.logged)
    ensures inum == 0 <==> Cut(name) !in DirMap(EntriesOf(fs, dp))
    ensures inum != 0 ==> k < |EntriesOf(fs, dp)| && EntriesOf(fs, dp)[k] == Entry(inum, Cut(name))
                          && DirMap(EntriesOf(fs, dp))[Cut(name)] == inum
  {
    ghost var es := EntriesOf(fs, dp);
    k := 0;
    while 16 * k < fs.inodes[dp].size
      invariant fs.blocks == old(fs.blocks) && fs.inodes == old(fs.inodes) && fs.owner == old(fs.owner)
      invariant fs.logged == old(fs.logged)
      invariant k <= |es| && forall i :: 0 <= i < k && es[i].inum != 0 ==> es[i].name != Cut(name)
      decreases fs.inodes[dp].size - 16 * k
    {
      var e := ReadEntry(fs, dp, k);
      StrncmpIsEquality(name, e.name, DIRSIZ);
      if e.inum != 0 && Strncmp(name, e.name, DIRSIZ) == 0 {
        FirstMatch(es, k);
        return e.inum, k;
      }
      k := k + 1;
    }
    DirMapKeys(es, Cut(name));
    return 0, k;
  }

  /** writei() of one entry: all of it or nothing, since an entry never
      straddles two blocks. */
  method WriteEntry(fs: FileSys, dp: nat, k: nat, bytes: seq<byte>) returns (ok: bool)
    requires GoodDir(fs, dp) && 16 * k <= fs.inodes[dp].size && |bytes| == 16
    modifies fs`blocks, fs`inodes, fs`owner, fs`logged
    ensures GoodDir(fs, dp)
    ensures EntriesOf(fs, dp) ==
              if !ok then old(EntriesOf(fs, dp))
              else if k < |old(EntriesOf(fs, dp))| then old(EntriesOf(fs, dp))[k := ParseEntry(bytes)]
              else old(EntriesOf(fs, dp)) + [ParseEntry(bytes)]
    ensures fs.inodes.Keys == old(fs.inodes).Keys
    ensures forall n :: n in fs.inodes && n != dp ==>
              && fs.inodes[n] == old(fs.inodes)[n]
              && FileBytes(fs.blocks, fs.inodes[n]) == FileBytes(old(fs.blocks), old(fs.inodes)[n])
    ensures !ok ==> k == |EntriesOf(fs, dp)| && (16 * k + 16 > MAXBYTES || DiskFull(fs.sb, fs.blocks))
  {
    var r := fs.Writei(dp, 16 * k, bytes, 16);
    ok := r == 16;
    ghost var c, c' := FileBytes(old(fs.blocks), old(fs.inodes)[dp]), FileBytes(fs.blocks, fs.inodes[dp]);
    if ok {
      assert bytes[..16] == bytes;
      SpliceEntry(c, k, bytes);
    } else if r != -1 {
      ShortEntry(old(fs.inodes)[dp].size, k, r);
      assert bytes[..0] == [];
      assert c' == c;
    }
  }

  lemma ShortEntry(size: nat, k: nat, r: nat)
    requires r < 16 && Boundary(size, 16 * k, r)
    ensures r == 0 && size <= 16 * k
  {
  }

  /** The second loop of dirlink(): the first unused entry, or the end. */
  method FindUnused(fs: FileSys, dp: nat) returns (k: nat)
    requires GoodDir(fs, dp)
    modifies fs`blocks, fs`inodes, fs`owner, fs`logged
    ensures fs.blocks == old(fs.blocks) && fs.inodes == old(fs.inodes) && fs.owner == old(fs.owner)
    ensures fs.logged == old(fs.logged)
    ensures k <= |EntriesOf(fs, dp)| && (k < |EntriesOf(fs, dp)| ==> EntriesOf(fs, dp)[k].inum == 0)
    ensures forall i :: 0 <= i < k ==> EntriesOf(fs, dp)[i].inum != 0
  {
    ghost var es := EntriesOf(fs, dp);
    k := 0;
    while 16 * k < fs.inodes[dp].size
      invariant fs.blocks == old(fs.blocks) && fs.inodes == old(fs.inodes) && fs.owner == old(fs.owner)
      invariant fs.logged == old(fs.logged)
      invariant k <= |es| && forall i :: 0 <= i < k ==> es[i].inum != 0
      decreases fs.inodes[dp].size - 16 * k
    {
      var e := ReadEntry(fs, dp, k);
      if e.inum == 0 {
        return;
      }
      k := k + 1;
    }
  }

  /** dirlink(): insert if absent. On failure the directory reads as before. */
  method Dirlink(fs: FileSys, dp: nat, name: seq<byte>, inum: nat) returns (r: int)
    requires GoodDir(fs, dp) && 0 < inum < 0x1_0000
    modifies fs`blocks, fs`inodes, fs`owner, fs`logged
    ensures GoodDir(fs, dp) && (r == 0 || r == -1)
    ensures r == 0 ==>
              && Cut(name) !in DirMap(old(EntriesOf(fs, dp)))
              && DirMap(EntriesOf(fs, dp)) == DirMap(old(EntriesOf(fs, dp)))[Cut(name) := inum]
    ensures UniqueNames(old(EntriesOf(fs, dp))) ==> UniqueNames(EntriesOf(fs, dp))
    ensures r == -1 ==> EntriesOf(fs, dp) == old(EntriesOf(fs, dp))
    ensures fs.inodes.Keys == old(fs.inodes).Keys
    ensures forall n :: n in fs.inodes && n != dp ==>
              && fs.inodes[n] == old(fs.inodes)[n]
              && FileBytes(fs.blocks, fs.inodes[n]) == FileBytes(old(fs.blocks), old(fs.inodes)[n])
    ensures r == -1 ==>
              || Cut(name) in DirMap(old(EntriesOf(fs, dp)))
              || 16 * |EntriesOf(fs, dp)| + 16 > MAXBYTES
              || DiskFull(fs.sb, fs.blocks)
  {
    ghost var es := EntriesOf(fs, dp);
    var found, at := Dirlookup(fs, dp, name);
    if found != 0 {
      return -1;
    }
    var k := FindUnused(fs, dp);
    DirentReads(name, inum);
    InsertUniqueAt(es, k, Entry(inum, Cut(name)));
    var ok := WriteEntry(fs, dp, k, Dirent(name, inum));
    r := if ok then 0 else -1;
  }

  lemma InsertUniqueAt(es: seq<Entry>, k: nat, e: Entry)
    requires k <= |es| && (k < |es| ==> es[k].inum == 0) && e.inum != 0 && e.name !in DirMap(es)
    ensures
      var es' := if k < |es| then es[k := e] else es + [e];
      DirMap(es') == DirMap(es)[e.name := e.inum] && (UniqueNames(es) ==> UniqueNames(es'))
  {
    if UniqueNames(es) { InsertUnique(es, k, e); }
    if k < |es| { InsertEntry(es, k, e); } else { AppendEntry(es, e); }
  }

  /** The lookup and the zeroing of an entry in sys_unlink(): exactly that name
      disappears, and the write never comes back short. */
  method RemoveName(fs: FileSys, dp: nat, name: seq<byte>) returns (inum: nat, panicked: bool)
    requires GoodDir(fs, dp) && UniqueNames(EntriesOf(fs, dp))
    modifies fs`blocks, fs`inodes, fs`owner, fs`logged
    ensures GoodDir(fs, dp) && UniqueNames(EntriesOf(fs, dp)) && !panicked
    ensures inum == 0 <==> Cut(name) !in DirMap(old(EntriesOf(fs, dp)))
    ensures inum != 0 ==> DirMap(old(EntriesOf(fs, dp)))[Cut(name)] == inum
    ensures DirMap(EntriesOf(fs, dp)) == DirMap(old(EntriesOf(fs, dp))) - {Cut(name)}
    ensures fs.inodes.Keys == old(fs.inodes).Keys
    ensures forall n :: n in fs.inodes && n != dp ==>
              && fs.inodes[n] == old(fs.inodes)[n]
              && FileBytes(fs.blocks, fs.inodes[n]) == FileBytes(old(fs.blocks), old(fs.inodes)[n])
  {
    ghost var es := EntriesOf(fs, dp);
    var k;
    inum, k := Dirlookup(fs, dp, name);
    if inum == 0 {
      assert DirMap(es) - {Cut(name)} == DirMap(es);
      return 0, false;
    }
    var zero := seq(16, _ => 0);
    ZeroedEntry(es, k, zero);
    var ok := WriteEntry(fs, dp, k, zero);
    panicked := !ok;
  }
}

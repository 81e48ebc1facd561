/** Directories: files holding 16-byte entries, read as finite maps from names to inode numbers. */
module Directories {
  import opened Blocks
  import opened Strings
  import opened Inodes
  import opened Contents
  import opened Files

  const ENTRY := 16             // sizeof(struct dirent)

  /** A directory entry: an inode number, 0 for a free slot, and a name. */
  datatype Dirent = Dirent(inum: nat, name: seq<byte>)

  /** The entry stored in 16 bytes: a little-endian 16-bit inode number and a NUL-padded name. */
  function Decode(e: seq<byte>): Dirent
    requires |e| == ENTRY
  {
    var lo: int, hi: int := e[0], e[1];
    Dirent(lo + 0x100 * hi, Cut(e[2..], DIRSIZ))
  }

  function Encode(inum: nat, name: seq<byte>): (e: seq<byte>)
    ensures |e| == ENTRY
  {
    [inum % 0x100, inum / 0x100 % 0x100] + Padded(name, DIRSIZ)
  }

  /** An entry reads back with its name cut and its inode number truncated to 16 bits. */
  lemma DecodeEncode(inum: nat, name: seq<byte>)
    ensures Decode(Encode(inum, name)) == Dirent(inum % 0x1_0000, Cut(name, DIRSIZ))
  {
    hide Cut, Padded;
    assert Encode(inum, name)[2..] == Padded(name, DIRSIZ);
    CutPadded(name, DIRSIZ);
    LowHalf(inum);
  }

  lemma LowHalf(n: nat)
    ensures n % 0x1_0000 == n % 0x100 + 0x100 * (n / 0x100 % 0x100)
  {
  }

  ghost predicate IsDirectory(c: seq<byte>)
  {
    |c| % ENTRY == 0
  }

  ghost function Entries(c: seq<byte>): (es: seq<Dirent>)
    requires IsDirectory(c)
    ensures |es| == |c| / ENTRY
  {
    seq(|c| / ENTRY, k requires 0 <= k < |c| / ENTRY => Decode(c[ENTRY * k..ENTRY * k + ENTRY]))
  }

  /** The directory as a map; were a name listed twice, the first listing counts. */
  ghost function Listing(es: seq<Dirent>): map<seq<byte>, nat>
  {
    if es == [] then map[] else
      var m, e := Listing(es[..|es| - 1]), es[|es| - 1];
      if e.inum == 0 || e.name in m then m else m[e.name := e.inum]
  }

  ghost function Names(c: seq<byte>): map<seq<byte>, nat>
    requires IsDirectory(c)
  {
    Listing(Entries(c))
  }

  /** Later entries never change what an earlier one says. */
  lemma {:induction false} ListingGrows(es: seq<Dirent>, k: nat, name: seq<byte>)
    requires k <= |es| && name in Listing(es[..k])
    ensures name in Listing(es) && Listing(es)[name] == Listing(es[..k])[name]
    decreases |es|
  {
    if k == |es| {
      assert es[..k] == es;
    } else {
      var init := es[..|es| - 1];
      assert init[..k] == es[..k];
      ListingGrows(init, k, name);
    }
  }

  lemma NothingListed(es: seq<Dirent>)
    ensures Listing(es[..0]) == map[]
  {
  }

  /** What one more entry adds. */
  lemma ListingNext(es: seq<Dirent>, k: nat, name: seq<byte>)
    requires k < |es|
    ensures name in Listing(es[..k + 1]) <==> name in Listing(es[..k]) || (es[k].inum != 0 && es[k].name == name)
    ensures name !in Listing(es[..k]) && name in Listing(es[..k + 1]) ==> Listing(es[..k + 1])[name] == es[k].inum
  {
    assert es[..k + 1][..k] == es[..k];
  }

  /** The names listed are exactly those of live entries. */
  lemma {:induction false} ListingNames(es: seq<Dirent>, name: seq<byte>)
    ensures name in Listing(es) <==> exists k :: 0 <= k < |es| && es[k].inum != 0 && es[k].name == name
  {
    if es != [] {
      var init := es[..|es| - 1];
      ListingNames(init, name);
      assert forall k :: 0 <= k < |init| ==> init[k] == es[k];
    }
  }

  /** Filling a free slot with a fresh name adds that one name; filling it with inode 0 adds nothing. */
  lemma {:induction false} ListingFill(es: seq<Dirent>, k: nat, e: Dirent)
    requires k < |es| && es[k].inum == 0 && e.name !in Listing(es)
    ensures Listing(es[k := e]) == if e.inum == 0 then Listing(es) else Listing(es)[e.name := e.inum]
    decreases |es|
  {
    var init, last := es[..|es| - 1], es[|es| - 1];
    if k == |es| - 1 {
      assert es[k := e][..k] == init;
    } else {
      assert es[k := e][..|es| - 1] == init[k := e];
      ListingFill(init, k, e);
    }
  }

  lemma ListingAppend(es: seq<Dirent>, e: Dirent)
    requires e.name !in Listing(es)
    ensures Listing(es + [e]) == if e.inum == 0 then Listing(es) else Listing(es)[e.name := e.inum]
  {
    assert (es + [e])[..|es|] == es;
  }

  /** Writing 16 bytes at entry `k` replaces that entry, or appends one. */
  lemma SpliceEntries(c: seq<byte>, k: nat, e: seq<byte>)
    requires IsDirectory(c) && ENTRY * k <= |c| && |e| == ENTRY
    ensures IsDirectory(Splice(c, ENTRY * k, e))
    ensures Entries(Splice(c, ENTRY * k, e)) ==
            if ENTRY * k < |c| then Entries(c)[k := Decode(e)] else Entries(c) + [Decode(e)]
  {
    hide Decode, Splice;
    var c' := Splice(c, ENTRY * k, e);
    var n := if ENTRY * k < |c| then |c| / ENTRY else |c| / ENTRY + 1;
    SpliceSize(c, k, e);
    forall j | 0 <= j < n
      ensures Entries(c')[j] == if j == k then Decode(e) else Entries(c)[j]
    {
      SpliceEntry(c, k, e, j);
    }
  }

  lemma SpliceSize(c: seq<byte>, k: nat, e: seq<byte>)
    requires |c| % ENTRY == 0 && ENTRY * k <= |c| && |e| == ENTRY
    ensures |Splice(c, ENTRY * k, e)| == if ENTRY * k < |c| then |c| else |c| + ENTRY
    ensures ENTRY * k < |c| ==> k < |c| / ENTRY
    ensures ENTRY * k >= |c| ==> k == |c| / ENTRY
  {
    assert |c| == ENTRY * (|c| / ENTRY);
  }

  /** The bytes of one entry after the splice. */
  lemma SpliceEntry(c: seq<byte>, k: nat, e: seq<byte>, j: nat)
    requires |c| % ENTRY == 0 && ENTRY * k <= |c| && |e| == ENTRY
    requires ENTRY * j + ENTRY <= |Splice(c, ENTRY * k, e)|
    ensures j != k ==> ENTRY * j + ENTRY <= |c|
    ensures Splice(c, ENTRY * k, e)[ENTRY * j..ENTRY * j + ENTRY] == if j == k then e else c[ENTRY * j..ENTRY * j + ENTRY]
  {
    var c', lo, hi := Splice(c, ENTRY * k, e), ENTRY * j, ENTRY * j + ENTRY;
    SpliceSize(c, k, e);
    assert j < k ==> hi <= ENTRY * k;
    assert k < j ==> ENTRY * k + ENTRY <= lo;
    if j == k {
      assert c'[lo..hi] == e;
    } else {
      assert c'[lo..hi] == c[lo..hi];
    }
  }

  /** Linking a fresh name at a free or new entry. */
  lemma LinkAt(c: seq<byte>, k: nat, inum: nat, name: seq<byte>)
    requires IsDirectory(c) && ENTRY * k <= |c| && Cut(name, DIRSIZ) !in Names(c)
    requires ENTRY * k < |c| ==> Entries(c)[k].inum == 0
    ensures IsDirectory(Splice(c, ENTRY * k, Encode(inum, name)))
    ensures Names(Splice(c, ENTRY * k, Encode(inum, name))) == Linked(Names(c), name, inum)
  {
    hide Encode, Decode, Splice, Listing, Entries;
    SpliceEntries(c, k, Encode(inum, name));
    DecodeEncode(inum, name);
    var e := Decode(Encode(inum, name));
    if ENTRY * k < |c| {
      ListingFill(Entries(c), k, e);
    } else {
      ListingAppend(Entries(c), e);
    }
  }

  /** The map after linking `name` to `inum`: one new key, unless the stored number is 0. */
  ghost function Linked(m: map<seq<byte>, nat>, name: seq<byte>, inum: nat): map<seq<byte>, nat>
  {
    if inum % 0x1_0000 == 0 then m else m[Cut(name, DIRSIZ) := inum % 0x1_0000]
  }

  /** The `k`th entry of directory `dp`. */
  method ReadEntry(fs: FileSystem, dp: nat, off: nat) returns (de: seq<byte>)
    requires fs.Valid() && dp < |fs.inodes| && IsDirectory(Content(fs.State(), dp))
    requires off % ENTRY == 0 && off < fs.inodes[dp].size
    modifies fs`blocks, fs`inodes, fs`owner, fs`loose, fs`journal
    ensures fs.Valid() && fs.State() == old(fs.State()) && fs.owner == old(fs.owner) && fs.journal == old(fs.journal)
    ensures |de| == ENTRY && Decode(de) == Entries(Content(fs.State(), dp))[off / ENTRY]
  {
    hide Content, Decode, FileSystem.Valid;
    fs.AllFit();
    ghost var c := Content(fs.State(), dp);
    assert off + ENTRY <= |c|;
    de := fs.Readi(dp, off, ENTRY);
    assert ENTRY * (off / ENTRY) == off;
    assert de == c[ENTRY * (off / ENTRY)..ENTRY * (off / ENTRY) + ENTRY];
  }

  /** dirlookup: what the directory's map says of the name, and the offset of the entry that says it. */
  method Dirlookup(fs: FileSystem, dp: nat, name: seq<byte>) returns (r: Option<nat>, poff: nat)
    requires fs.Valid() && dp < |fs.inodes| && IsDirectory(Content(fs.State(), dp)) && Readable(name, DIRSIZ)
    modifies fs`blocks, fs`inodes, fs`owner, fs`loose, fs`journal
    ensures fs.Valid() && fs.State() == old(fs.State()) && fs.owner == old(fs.owner) && fs.journal == old(fs.journal)
    ensures r.None? <==> Cut(name, DIRSIZ) !in Names(Content(fs.State(), dp))
    ensures r.Some? ==>
              && r.value == Names(Content(fs.State(), dp))[Cut(name, DIRSIZ)] && r.value != 0
              && poff % ENTRY == 0 && poff < fs.inodes[dp].size
              && Entries(Content(fs.State(), dp))[poff / ENTRY] == Dirent(r.value, Cut(name, DIRSIZ))
  {
    hide Content, Cut, Entries, FileSystem.Valid, Listing, Shape;
    fs.AllFit();
    ghost var c := Content(fs.State(), dp);
    ghost var es, key := Entries(c), Cut(name, DIRSIZ);
    NothingListed(es);
    poff := 0;
    while poff < fs.inodes[dp].size
      invariant poff % ENTRY == 0 && poff <= |c| && fs.State() == old(fs.State()) && fs.Valid()
      invariant fs.owner == old(fs.owner) && fs.journal == old(fs.journal)
      invariant key !in Listing(es[..poff / ENTRY])
    {
      ghost var k := poff / ENTRY;
      var de := ReadEntry(fs, dp, poff);
      ListingNext(es, k, key);
      var lo: int, hi: int := de[0], de[1];
      var inum := lo + 0x100 * hi;
      if inum != 0 {
        var same := Strncmp(name, de[2..], DIRSIZ);
        if same == 0 {
          ListingGrows(es, k + 1, key);
          return Some(inum), poff;
        }
      }
      poff := poff + ENTRY;
      assert poff / ENTRY == k + 1;
    }
    assert es[..poff / ENTRY] == es;
    r := None;
  }

  /** The offset of the first free entry, or the end of the directory. */
  method FreeEntry(fs: FileSystem, dp: nat) returns (off: nat)
    requires fs.Valid() && dp < |fs.inodes| && IsDirectory(Content(fs.State(), dp))
    modifies fs`blocks, fs`inodes, fs`owner, fs`loose, fs`journal
    ensures fs.Valid() && fs.State() == old(fs.State()) && fs.owner == old(fs.owner) && fs.journal == old(fs.journal)
    ensures off % ENTRY == 0 && off <= fs.inodes[dp].size
    ensures off < fs.inodes[dp].size ==> Entries(Content(fs.State(), dp))[off / ENTRY].inum == 0
    ensures forall k :: 0 <= k < off / ENTRY ==> Entries(Content(fs.State(), dp))[k].inum != 0
  {
    hide Content, Cut, Entries, FileSystem.Valid;
    fs.AllFit();
    ghost var es := Entries(Content(fs.State(), dp));
    off := 0;
    while off < fs.inodes[dp].size
      invariant fs.Valid() && fs.State() == old(fs.State()) && off % ENTRY == 0 && off <= fs.inodes[dp].size
      invariant fs.owner == old(fs.owner) && fs.journal == old(fs.journal)
      invariant forall k :: 0 <= k < off / ENTRY ==> es[k].inum != 0
    {
      var de := ReadEntry(fs, dp, off);
      var lo: int, hi: int := de[0], de[1];
      if lo + 0x100 * hi == 0 { break; }
      ghost var k := off / ENTRY;
      off := off + ENTRY;
      assert off / ENTRY == k + 1;
    }
  }

  /** dirlink: on success the directory's map gains exactly the cut name; on failure it is unchanged.  The
      name must be new and an entry must fit.  No other file changes either way. */
  method Dirlink(fs: FileSystem, dp: nat, name: seq<byte>, inum: word) returns (r: int)
    requires fs.Valid() && dp < |fs.inodes| && IsDirectory(Content(fs.State(), dp)) && Readable(name, DIRSIZ)
    modifies fs`blocks, fs`inodes, fs`owner, fs`loose, fs`journal
    ensures fs.Valid() && |fs.inodes| == |old(fs.inodes)| && IsDirectory(Content(fs.State(), dp))
    ensures r == 0 ==>
              && Cut(name, DIRSIZ) !in old(Names(Content(fs.State(), dp)))
              && Names(Content(fs.State(), dp)) == Linked(old(Names(Content(fs.State(), dp))), name, inum)
    ensures r != 0 ==> r == -1 && Content(fs.State(), dp) == old(Content(fs.State(), dp))
    ensures r != 0 && Cut(name, DIRSIZ) !in old(Names(Content(fs.State(), dp))) ==>
              Full(fs.State()) || fs.inodes[dp].size == MAXBYTES
    ensures forall j :: 0 <= j < |fs.inodes| && j != dp ==> Content(fs.State(), j) == old(Content(fs.State(), j))
  {
    hide Content, Cut, Entries, Encode, Listing, Splice, Full, FileSystem.Valid, Linked;
    fs.AllFit();
    var ip, _ := Dirlookup(fs, dp, name);
    if ip.Some? { return -1; }
    var off := FreeEntry(fs, dp);
    var field := new byte[DIRSIZ];
    Strncpy(field, name, DIRSIZ);
    assert field[..] == field[..DIRSIZ];
    EncodeIs(inum, name);
    fs.AllFit();
    LinkAt(Content(fs.State(), dp), off / ENTRY, inum, name);
    r := StoreEntry(fs, dp, off, [inum % 0x100, inum / 0x100 % 0x100] + field[..]);
  }

  /** The end of dirlink.  An entry never crosses a block boundary, so it is stored whole or not at all. */
  method StoreEntry(fs: FileSystem, dp: nat, off: nat, de: seq<byte>) returns (r: int)
    requires fs.Valid() && dp < |fs.inodes| && IsDirectory(Content(fs.State(), dp))
    requires off % ENTRY == 0 && off <= fs.inodes[dp].size && |de| == ENTRY
    modifies fs`blocks, fs`inodes, fs`owner, fs`loose, fs`journal
    ensures fs.Valid() && |fs.inodes| == |old(fs.inodes)|
    ensures r == 0 ==> Content(fs.State(), dp) == Splice(old(Content(fs.State(), dp)), ENTRY * (off / ENTRY), de)
    ensures r != 0 ==> r == -1 && Content(fs.State(), dp) == old(Content(fs.State(), dp))
    ensures r != 0 ==> Full(fs.State()) || fs.inodes[dp].size == MAXBYTES
    ensures forall j :: 0 <= j < |fs.inodes| && j != dp ==> Content(fs.State(), j) == old(Content(fs.State(), j))
  {
    hide Content, Cut, Entries, Encode, Listing, Splice, Full, FileSystem.Valid;
    fs.AllFit();
    ghost var c := Content(fs.State(), dp);
    assert ENTRY * (off / ENTRY) == off && |c| % ENTRY == 0;
    ghost var seen;
    r, seen := fs.Writei(dp, off, de, |de|);
    fs.AllFit();
    assert r == -1 || r == 0 || r == ENTRY;
    if r == ENTRY {
      assert de[..r + seen] == de;
      return 0;
    }
    if r == 0 {
      assert de[..r + seen] == [];
      SpliceNothing(c, off);
    }
    r := -1;
  }

  lemma EncodeIs(inum: nat, name: seq<byte>)
    ensures Encode(inum, name) == [inum % 0x100, inum / 0x100 % 0x100] + Padded(name, DIRSIZ)
  {
  }
}

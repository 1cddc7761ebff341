/**
 Files as the operating system keeps them: names refer to inodes, inodes hold bytes, and an open
 file stays the same file when it is renamed or unlinked.
 */
module FileSystem {
  import opened Directory

  datatype Fs = Fs(names: map<string, nat>, data: map<nat, Bytes>)

  const EMPTY_FS := Fs(map[], map[])

  /** Opening a file to write it anew finds the named file, or creates one. */
  function OpenedInode(fs: Fs, name: string, newInode: nat): nat {
    if name in fs.names then fs.names[name] else newInode
  }

  /** That truncates whatever file has the name. */
  function Truncated(fs: Fs, name: string, newInode: nat): Fs {
    var inode := OpenedInode(fs, name, newInode);
    Fs(fs.names[name := inode], fs.data[inode := []])
  }

  /** Bytes written at an offset; a gap before it reads as zeros. */
  function Overlay(before: Bytes, offset: nat, chunk: Bytes): Bytes {
    var padded := if |before| < offset then before + seq(offset - |before|, _ => 0) else before;
    padded[..offset] + chunk + (if offset + |chunk| <= |padded| then padded[offset + |chunk|..] else [])
  }

  function Written(fs: Fs, inode: nat, offset: nat, chunk: Bytes): Fs
    requires inode in fs.data
  {
    fs.(data := fs.data[inode := Overlay(fs.data[inode], offset, chunk)])
  }

  function Renamed(fs: Fs, from: string, to: string): Fs
    requires from in fs.names
  {
    fs.(names := (fs.names - {from})[to := fs.names[from]])
  }

  function Unlinked(fs: Fs, name: string): Fs {
    fs.(names := fs.names - {name})
  }

  // ---- Torn contents ----

  /** Pieces of the whole at their places, zeros in the gaps before the last piece, nothing after it. */
  predicate Torn(t: Bytes, whole: Bytes) {
    && |t| <= |whole|
    && (forall i :: 0 <= i < |t| ==> t[i] == whole[i] || t[i] == 0)
    && (t != [] ==> t[|t| - 1] == whole[|t| - 1])
  }

  lemma WholeIsTorn(whole: Bytes)
    ensures Torn(whole, whole) && Torn([], whole)
  {
  }

  /** One more piece, wherever it goes, leaves pieces of the whole. */
  lemma OverlayKeepsTorn(t: Bytes, whole: Bytes, offset: nat, upTo: nat)
    requires Torn(t, whole) && offset < upTo <= |whole|
    ensures Torn(Overlay(t, offset, whole[offset..upTo]), whole)
  {
    var t' := Overlay(t, offset, whole[offset..upTo]);
    assert forall i :: 0 <= i < |t'| ==>
        t'[i] == if offset <= i < upTo then whole[i] else if i < |t| then t[i] else 0;
  }
}

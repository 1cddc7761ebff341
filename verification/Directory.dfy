/**
 The directory that holds compiled artifacts: files by name, which names count as artifacts,
 and sizes of sets of files.
 */
module Directory {
  import opened Wrappers
  import opened Strings

  type byte = x: int | 0 <= x < 256
  type Bytes = seq<byte>

  datatype File = File(content: Bytes, accessed: nat) {
    function Size(): nat { |content| }
  }

  type Dir = map<string, File>

  // ---- Names ----

  /** The extension of a file name: what follows the last dot, unless that dot starts the name. */
  function Extension(name: string): Option<string> {
    match LastIndexOf(name, '.')
    case None => None
    case Some(dot) => if dot == 0 then None else Some(name[dot + 1..])
  }

  /** Only a dot with something before it begins an extension, and the last such dot does. */
  lemma ExtensionOf(stem: string, ext: string)
    requires '.' !in ext
    ensures stem != "" ==> Extension(stem + "." + ext) == Some(ext)
    ensures Extension("." + ext) == None && Extension(ext) == None
  {
    var name := stem + "." + ext;
    LastIndexOfIs(name, '.', |stem|);
    assert name[|stem| + 1..] == ext;
    LastIndexOfIs("." + ext, '.', 0);
  }

  predicate IsArtifact(name: string) {
    Extension(name) == Some("aot")
  }

  function ArtifactName(key: string): string { key + ".aot" }

  function TempName(key: string): string { key + ".aot.tmp" }

  /** Artifacts are seen by every scan and temp files by none, and no name is of both kinds. */
  lemma ArtifactNames(key: string, key': string)
    ensures key != "" ==> IsArtifact(ArtifactName(key))
    ensures !IsArtifact(TempName(key))
    ensures ArtifactName(key) != TempName(key')
    ensures ArtifactName(key) == ArtifactName(key') ==> key == key'
  {
    var a, t, t' := ArtifactName(key), TempName(key), TempName(key');
    LastIndexOfIs(a, '.', |key|);
    assert a[|key| + 1..] == "aot";
    LastIndexOfIs(t, '.', |key| + 4);
    assert t[|key| + 5..] == "tmp";
    assert a[|a| - 1] == 't' && t'[|t'| - 1] == 'p';
    assert a[..|a| - 4] == key && ArtifactName(key')[..|ArtifactName(key')| - 4] == key';
  }

  lemma TempNameInjective(key: string, key': string)
    requires TempName(key) == TempName(key')
    ensures key == key'
  {
    assert TempName(key)[..|TempName(key)| - 8] == key;
    assert TempName(key')[..|TempName(key')| - 8] == key';
  }

  // ---- Sizes ----

  ghost function SizeOf(dir: Dir, names: set<string>): nat
    requires names <= dir.Keys
  {
    if names == {} then 0
    else
      var n :| n in names;
      dir[n].Size() + SizeOf(dir, names - {n})
  }

  lemma {:induction false} SizeOfRemove(dir: Dir, names: set<string>, x: string)
    requires names <= dir.Keys && x in names
    ensures SizeOf(dir, names) == dir[x].Size() + SizeOf(dir, names - {x})
    decreases names
  {
    var n :| n in names && SizeOf(dir, names) == dir[n].Size() + SizeOf(dir, names - {n});
    if n != x {
      SizeOfRemove(dir, names - {n}, x);
      SizeOfRemove(dir, names - {x}, n);
      assert names - {n} - {x} == names - {x} - {n};
    }
  }

  /** Sizes depend only on the named files. */
  lemma {:induction false} SizeOfFrame(dir: Dir, dir': Dir, names: set<string>)
    requires names <= dir.Keys && names <= dir'.Keys
    requires forall n :: n in names ==> dir[n] == dir'[n]
    ensures SizeOf(dir, names) == SizeOf(dir', names)
    decreases names
  {
    if names != {} {
      var x :| x in names;
      SizeOfRemove(dir, names, x);
      SizeOfRemove(dir', names, x);
      SizeOfFrame(dir, dir', names - {x});
    }
  }
}

/** Component references for an OCI registry (`parse_oci_reference` and `split_tag` in src/commands/add.rs). */
module OciReference {
  import opened Wrappers
  import opened Strings

  const DEFAULT_REGISTRY := "ghcr.io"
  const DEFAULT_TAG := "latest"

  datatype Parsed = Parsed(name: string, reference: string)

  /** A colon counts as a tag separator only after the last slash, so a port is never taken for a tag. */
  function SplitTag(spec: string): (string, Option<string>) {
    match LastIndexOf(spec, '/')
    case Some(lastSlash) =>
      (match LastIndexOf(spec[lastSlash..], ':')
       case Some(colon) =>
         var colonPos := lastSlash + colon;
         (spec[..colonPos], Some(spec[colonPos + 1..]))
       case None => (spec, None))
    case None =>
      match LastIndexOf(spec, ':')
      case Some(colon) => (spec[..colon], Some(spec[colon + 1..]))
      case None => (spec, None)
  }

  predicate IsFullReference(spec: string) {
    match IndexOf(spec, '/')
    case Some(slash) => '.' in spec[..slash]
    case None => false
  }

  /** The piece after the last slash, or everything when there is no slash. */
  function LastSegment(path: string): string {
    match LastIndexOf(path, '/')
    case Some(slash) => path[slash + 1..]
    case None => path
  }

  /** Registry, path and parsed tag; the error is the source's "missing path separator". */
  function Locate(spec: string): Result<(string, string, Option<string>), string> {
    var (withoutTag, tag) := SplitTag(spec);
    if IsFullReference(spec) then
      match IndexOf(withoutTag, '/')
      case None => Err("Invalid OCI reference: missing path separator")
      case Some(slash) => Ok((withoutTag[..slash], withoutTag[slash + 1..], tag))
    else
      Ok((DEFAULT_REGISTRY, withoutTag, tag))
  }

  function ParseOciReference(spec: string, explicitTag: Option<string>): Result<Parsed, string> {
    match Locate(spec)
    case Err(e) => Err(e)
    case Ok((registry, path, tag)) =>
      var finalTag :=
        if explicitTag.Some? then explicitTag.value
        else if tag.Some? then tag.value else DEFAULT_TAG;
      Ok(Parsed(LastSegment(path), registry + "/" + path + ":" + finalTag))
  }

  // ---- split_tag ----

  predicate PlainTag(tag: string) {
    '/' !in tag && ':' !in tag
  }

  /** Nothing is lost, the tag holds neither `/` nor `:`, and without a tag the last segment has no colon. */
  lemma {:induction false} SplitTagLossless(spec: string)
    ensures
      var (base, tag) := SplitTag(spec);
      match tag
      case Some(t) => spec == base + ":" + t && PlainTag(t)
      case None => base == spec && ':' !in LastSegment(spec)
  {
    match LastIndexOf(spec, '/') {
      case Some(slash) => ColonAfterSlash(spec, slash);
      case None =>
        match LastIndexOf(spec, ':') {
          case Some(colon) => CutAt(spec, ':', colon);
          case None =>
        }
    }
  }

  lemma ColonAfterSlash(spec: string, slash: nat)
    requires LastIndexOf(spec, '/') == Some(slash)
    ensures
      match LastIndexOf(spec[slash..], ':')
      case Some(colon) =>
        spec == spec[..slash + colon] + ":" + spec[slash + colon + 1..] && PlainTag(spec[slash + colon + 1..])
      case None => ':' !in spec[slash + 1..]
  {
    var tail := spec[slash..];
    assert forall k :: slash <= k < |spec| ==> spec[k] == tail[k - slash];
    match LastIndexOf(tail, ':')
    case Some(colon) => CutAt(spec, ':', slash + colon);
    case None => assert tail[1..] == spec[slash + 1..];
  }

  /** The converse: any base with a plain tag attached splits exactly there. */
  lemma SplitTagOfTagged(base: string, tag: string)
    requires PlainTag(tag)
    ensures SplitTag(base + ":" + tag) == (base, Some(tag))
  {
    var spec := base + ":" + tag;
    assert spec[..|base|] == base && spec[|base| + 1..] == tag;
    assert forall k :: |base| < k < |spec| ==> spec[k] == tag[k - |base| - 1];
    match LastIndexOf(spec, '/')
    case Some(slash) => LastColonAfter(spec, slash, |base|);
    case None => LastIndexOfIs(spec, ':', |base|);
  }

  lemma LastColonAfter(spec: string, start: nat, colon: nat)
    requires start < colon < |spec| && spec[colon] == ':'
    requires forall k :: colon < k < |spec| ==> spec[k] != ':'
    ensures LastIndexOf(spec[start..], ':') == Some(colon - start)
  {
    var tail := spec[start..];
    assert forall k :: 0 <= k < |tail| ==> tail[k] == spec[start + k];
    LastIndexOfIs(tail, ':', colon - start);
  }

  lemma SplitTagOfUntagged(spec: string)
    requires ':' !in LastSegment(spec)
    ensures SplitTag(spec) == (spec, None)
  {
    match LastIndexOf(spec, '/')
    case Some(slash) =>
      var tail := spec[slash..];
      assert forall k :: 0 < k < |tail| ==> tail[k] == LastSegment(spec)[k - 1];
    case None =>
  }

  // ---- Canonical form ----

  lemma LastSegmentAfterSlash(front: string, back: string)
    ensures LastSegment(front + "/" + back) == LastSegment(back)
  {
    LastIndexOfIs(front + "/", '/', |front|);
    LastIndexOfConcat(front + "/", back, '/');
    DropFront(front + "/", back, match LastIndexOf(back, '/') case Some(i) => i + 1 case None => 0);
  }

  lemma DropFront(front: string, back: string, n: nat)
    requires n <= |back|
    ensures (front + back)[|front| + n..] == back[n..]
  {
  }

  lemma DropWithin(front: string, back: string, n: nat)
    requires n <= |front|
    ensures (front + back)[n..] == front[n..] + back
  {
  }

  lemma LastSegmentBeforeSuffix(path: string, suffix: string)
    requires '/' !in suffix
    ensures LastSegment(path + suffix) == LastSegment(path) + suffix
  {
    LastIndexOfConcat(path, suffix, '/');
    match LastIndexOf(path, '/')
    case Some(i) => DropWithin(path, suffix, i + 1);
    case None =>
  }

  lemma DefaultRegistryShape()
    ensures '.' in DEFAULT_REGISTRY && '/' !in DEFAULT_REGISTRY && PlainTag(DEFAULT_TAG)
  {
    assert DEFAULT_REGISTRY[4] == '.';
  }

  lemma FirstSlashInFront(front: string, tail: string)
    requires '/' !in tail && '/' in front + tail
    ensures IndexOf(front, '/').Some? && IndexOf(front, '/') == IndexOf(front + tail, '/')
    ensures
      var slash := IndexOf(front, '/').value;
      front[..slash] == (front + tail)[..slash] && front == front[..slash] + "/" + front[slash + 1..]
  {
    var slash := IndexOf(front + tail, '/').value;
    assert slash < |front|;
    assert forall k :: 0 <= k < |front| ==> front[k] == (front + tail)[k];
    IndexOfIs(front, '/', slash);
    CutAt(front, '/', slash);
  }

  lemma BaseAndTail(spec: string) returns (tail: string)
    ensures spec == SplitTag(spec).0 + tail && '/' !in tail
  {
    SplitTagLossless(spec);
    match SplitTag(spec).1
    case Some(tag) =>
      tail := ":" + tag;
      assert (SplitTag(spec).0 + ":") + tag == SplitTag(spec).0 + tail;
    case None =>
      tail := "";
  }

  /** In a full reference the first slash comes before the tag, so it is found again without the tag. */
  lemma SlashBeforeTag(spec: string)
    requires IsFullReference(spec)
    ensures
      var (base, slash) := (SplitTag(spec).0, IndexOf(spec, '/').value);
      && IndexOf(base, '/') == Some(slash)
      && base[..slash] == spec[..slash]
      && base == base[..slash] + "/" + base[slash + 1..]
  {
    var tail := BaseAndTail(spec);
    FirstSlashInFront(SplitTag(spec).0, tail);
  }

  /** The registry found in a full reference is the text before the first slash, tag or no tag. */
  lemma LocateSucceeds(spec: string)
    ensures Locate(spec).Ok?
    ensures
      var (registry, path, tag) := Locate(spec).value;
      && tag == SplitTag(spec).1
      && '.' in registry && '/' !in registry
      && LastSegment(path) == LastSegment(SplitTag(spec).0)
      && (IsFullReference(spec) ==> registry + "/" + path == SplitTag(spec).0)
      && (!IsFullReference(spec) ==> registry == DEFAULT_REGISTRY && path == SplitTag(spec).0)
  {
    if IsFullReference(spec) {
      SlashBeforeTag(spec);
      var base := SplitTag(spec).0;
      var slash := IndexOf(base, '/').value;
      LastSegmentAfterSlash(base[..slash], base[slash + 1..]);
    } else {
      DefaultRegistryShape();
    }
  }

  lemma Defaults()
    ensures DEFAULT_REGISTRY == "ghcr.io" && DEFAULT_TAG == "latest"
  {
  }

  /** A reference is full exactly if there is a dot before its first slash. */
  lemma FullReferenceIff(first: string, rest: string)
    requires '/' !in first
    ensures IsFullReference(first + "/" + rest) <==> '.' in first
    ensures !IsFullReference(first)
  {
    SplitAtFirstSlash(first, rest);
  }

  lemma LastSegmentIs(front: string, back: string)
    requires '/' !in back
    ensures LastSegment(front + "/" + back) == back && LastSegment(back) == back
  {
    LastSegmentAfterSlash(front, back);
  }

  /** The tag that a reference ends with: the explicit one, else the parsed one, else the default. */
  function ChosenTag(explicitTag: Option<string>, parsed: Option<string>): string {
    match (explicitTag, parsed)
    case (Some(t), _) => t
    case (None, Some(t)) => t
    case (None, None) => DEFAULT_TAG
  }

  /** What parsing makes of any spec: registry in front if it is short, tag replaced, name after the last slash. */
  lemma ReferenceShape(spec: string, explicitTag: Option<string>)
    ensures ParseOciReference(spec, explicitTag).Ok?
    ensures
      var (base, parsed) := SplitTag(spec);
      var r := ParseOciReference(spec, explicitTag).value;
      && r.reference == (if IsFullReference(spec) then base else DEFAULT_REGISTRY + "/" + base)
                        + ":" + ChosenTag(explicitTag, parsed)
      && r.name == LastSegment(base)
  {
    LocateSucceeds(spec);
  }

  lemma LocateTagged(registry: string, path: string, tag: string)
    requires '.' in registry && '/' !in registry && PlainTag(tag)
    ensures Locate(registry + "/" + path + ":" + tag) == Ok((registry, path, Some(tag)))
  {
    var base := registry + "/" + path;
    SplitTagOfTagged(base, tag);
    assert registry + "/" + (path + ":" + tag) == base + ":" + tag;
    SplitAtFirstSlash(registry, path + ":" + tag);
    SplitAtFirstSlash(registry, path);
  }

  /** What parsing makes of a reference whose registry has a dot and whose tag is plain. */
  lemma ParseOfTagged(registry: string, path: string, tag: string)
    requires '.' in registry && '/' !in registry && PlainTag(tag)
    ensures ParseOciReference(registry + "/" + path + ":" + tag, None)
         == Ok(Parsed(LastSegment(path), registry + "/" + path + ":" + tag))
  {
    LocateTagged(registry, path, tag);
  }

  lemma ParseOfUntagged(registry: string, path: string)
    requires '.' in registry && '/' !in registry && ':' !in LastSegment(path)
    ensures ParseOciReference(registry + "/" + path, None)
         == Ok(Parsed(LastSegment(path), registry + "/" + path + ":" + DEFAULT_TAG))
  {
    LastSegmentAfterSlash(registry, path);
    SplitTagOfUntagged(registry + "/" + path);
    SplitAtFirstSlash(registry, path);
  }

  /**
   Which explicit tags leave a reference that parses back to itself: with a slash in the tag,
   the tag's own last segment has to be the component name with a tag of its own.
   */
  predicate StableTag(spec: string, explicitTag: Option<string>) {
    match explicitTag
    case None => true
    case Some(t) =>
      if '/' in t then
        var (base, inner) := SplitTag(LastSegment(t));
        inner.Some? && base == LastSegment(SplitTag(spec).0)
      else
        ':' !in t
  }

  function Reference(registry: string, path: string, tag: string): string {
    registry + "/" + path + ":" + tag
  }

  /** One pass of parsing is enough exactly for stable tags. */
  lemma CanonicalIff(spec: string, explicitTag: Option<string>)
    ensures ParseOciReference(spec, explicitTag).Ok?
    ensures
      var first := ParseOciReference(spec, explicitTag).value;
      ParseOciReference(first.reference, None) == Ok(first) <==> StableTag(spec, explicitTag)
  {
    LocateSucceeds(spec);
    var (registry, path, parsedTag) := Locate(spec).value;
    SplitTagLossless(spec);
    DefaultRegistryShape();
    match explicitTag
    case None =>
      ParseOfTagged(registry, path, if parsedTag.Some? then parsedTag.value else DEFAULT_TAG);
    case Some(tag) =>
      if '/' in tag {
        SlashTag(registry, path, tag);
      } else if ':' in tag {
        ColonTagRenames(registry, path, tag);
      } else {
        ParseOfTagged(registry, path, tag);
      }
  }

  lemma MoveColon(registry: string, path: string, tag: string, i: nat)
    requires i < |tag| && tag[i] == ':'
    ensures Reference(registry, path, tag) == Reference(registry, path + (":" + tag[..i]), tag[i + 1..])
  {
    assert tag == tag[..i] + ":" + tag[i + 1..];
  }

  lemma ColonTagRenames(registry: string, path: string, tag: string)
    requires '.' in registry && '/' !in registry && '/' !in tag && ':' in tag
    ensures ParseOciReference(Reference(registry, path, tag), None).Ok?
    ensures ParseOciReference(Reference(registry, path, tag), None).value.name != LastSegment(path)
  {
    var i := LastIndexOf(tag, ':').value;
    MoveColon(registry, path, tag, i);
    LastSegmentBeforeSuffix(path, ":" + tag[..i]);
    ParseOfTagged(registry, path + (":" + tag[..i]), tag[i + 1..]);
  }

  /** The last slash of the tag takes over as the border between path and name. */
  lemma MoveSlash(registry: string, path: string, tag: string, slash: nat)
    requires slash < |tag| && tag[slash] == '/'
    ensures Reference(registry, path, tag)
         == registry + "/" + (path + ":" + tag[..slash] + "/" + tag[slash + 1..])
  {
    assert tag == tag[..slash] + "/" + tag[slash + 1..];
  }

  lemma SlashTag(registry: string, path: string, tag: string)
    requires '.' in registry && '/' !in registry && '/' in tag
    ensures
      var name := LastSegment(path);
      var full := Reference(registry, path, tag);
      var (base, inner) := SplitTag(LastSegment(tag));
      ParseOciReference(full, None) == Ok(Parsed(name, full)) <==> inner.Some? && base == name
  {
    var slash := LastIndexOf(tag, '/').value;
    var segment := tag[slash + 1..];
    var front := path + ":" + tag[..slash];
    MoveSlash(registry, path, tag, slash);
    LastSegmentAfterSlash(front, segment);
    SplitTagLossless(segment);
    assert '/' !in segment;
    var (base, inner) := SplitTag(segment);
    if inner.Some? {
      TaggedSegment(registry, front, base, inner.value);
    } else {
      ParseOfUntagged(registry, front + "/" + segment);
    }
  }

  lemma Regroup(registry: string, front: string, base: string, inner: string)
    ensures registry + "/" + (front + "/" + (base + ":" + inner)) == Reference(registry, front + "/" + base, inner)
  {
  }

  lemma TaggedSegment(registry: string, front: string, base: string, inner: string)
    requires '.' in registry && '/' !in registry && '/' !in base && PlainTag(inner)
    ensures
      var full := registry + "/" + (front + "/" + (base + ":" + inner));
      ParseOciReference(full, None) == Ok(Parsed(base, full))
  {
    Regroup(registry, front, base, inner);
    LastSegmentAfterSlash(front, base);
    assert LastSegment(base) == base;
    ParseOfTagged(registry, front + "/" + base, inner);
  }

  /** Without an explicit tag every spec, with or without a slash, reaches its canonical form in one pass. */
  lemma CanonicalInOnePass(spec: string)
    ensures ParseOciReference(spec, None).Ok?
    ensures
      var first := ParseOciReference(spec, None).value;
      ParseOciReference(first.reference, None) == Ok(first)
  {
    CanonicalIff(spec, None);
  }

  /** Why the condition is there: in a tag such as `v/1` the slash makes it part of the path, and `latest` is added. */
  lemma SlashTagIsNotCanonical(spec: string, front: string, back: string)
    requires PlainTag(back)
    ensures ParseOciReference(spec, Some(front + "/" + back)).Ok?
    ensures
      var first := ParseOciReference(spec, Some(front + "/" + back)).value;
      ParseOciReference(first.reference, None) != Ok(first)
  {
    var tag := front + "/" + back;
    assert tag[|front|] == '/';
    LastSegmentAfterSlash(front, back);
    SplitTagOfUntagged(back);
    CanonicalIff(spec, Some(tag));
  }
}

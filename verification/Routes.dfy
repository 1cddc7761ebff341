/**
 From request paths to modules (`parse_module_route` and `parse_module_path_route` in
 src/runtime/request_handler.rs).  Percent-decoding is a library call: `decode` stands for it
 and is applied only where the text holds a `%`, as in the source.
 */
module Routes {
  import opened Wrappers
  import opened Strings
  import opened ModulePath

  type Decoder = string -> string

  function Decoded(s: string, decode: Decoder): string {
    if '%' in s then decode(s) else s
  }

  /** Module name and handler path of a `/run/` route. */
  function ParseModuleRoute(runPath: string, decode: Decoder): (string, string) {
    if runPath == "" then ("", "/")
    else match IndexOf(runPath, '/')
      case Some(slash) => (Decoded(runPath[..slash], decode), Decoded(runPath[slash..], decode))
      case None => (Decoded(runPath, decode), "/")
  }

  function NonEmpty(parts: seq<string>): seq<string> {
    if parts == [] then []
    else (if parts[0] == "" then [] else [parts[0]]) + NonEmpty(parts[1..])
  }

  function Segments(path: string): seq<string> {
    NonEmpty(Split(path, '/'))
  }

  function ParseModulePathRoute(runPath: string, decode: Decoder): Option<(ModulePath, string)> {
    if runPath == "" then None
    else
      var segments := Segments(runPath);
      if segments == [] then None
      else if |segments| >= 2 then
        var handlerPath := if |segments| > 2 then "/" + Join(segments[2..], '/') else "/";
        Some((Tenant(Decoded(segments[0], decode), Decoded(segments[1], decode)), handlerPath))
      else
        Some((Platform(Decoded(segments[0], decode)), "/"))
  }

  // ---- Platform routes ----

  /** The module is the text before the first slash, the handler path the rest, each decoded if it holds a `%`. */
  lemma PlatformRouteRecovered(name: string, handlerPath: string, decode: Decoder)
    requires '/' !in name
    ensures
      var moduleName := if '%' in name then decode(name) else name;
      && ParseModuleRoute(name, decode) == (moduleName, "/")
      && ParseModuleRoute(name + "/" + handlerPath, decode) ==
           (moduleName, if '%' in handlerPath then decode("/" + handlerPath) else "/" + handlerPath)
  {
    SplitAtFirstSlash(name, handlerPath);
    var path := name + "/" + handlerPath;
    assert path[|name|..] == "/" + handlerPath;
  }

  // ---- Tenant routes ----

  function Slashes(n: nat): string {
    if n == 0 then "" else "/" + Slashes(n - 1)
  }

  ghost predicate RouteSegments(segments: seq<string>) {
    forall s :: s in segments ==> s != "" && '/' !in s
  }

  /** How many slashes stand before, between and after the segments: at least one in between. */
  ghost predicate Spacing(segments: seq<string>, slashes: seq<nat>) {
    |slashes| == |segments| + 1 && forall i :: 0 < i < |segments| ==> slashes[i] >= 1
  }

  ghost function Route(segments: seq<string>, slashes: seq<nat>): string
    requires Spacing(segments, slashes)
  {
    if segments == [] then Slashes(slashes[0])
    else Slashes(slashes[0]) + segments[0] + Route(segments[1..], slashes[1..])
  }

  lemma {:induction false} NonEmptyConcat(a: seq<string>, b: seq<string>)
    ensures NonEmpty(a + b) == NonEmpty(a) + NonEmpty(b)
  {
    if a == [] {
      assert a + b == b;
    } else {
      assert (a + b)[1..] == a[1..] + b;
      NonEmptyConcat(a[1..], b);
    }
  }

  lemma {:induction false} LeadingSlashes(n: nat, path: string)
    ensures Segments(Slashes(n) + path) == Segments(path)
  {
    if n == 0 {
      assert Slashes(n) + path == path;
    } else {
      var rest := Slashes(n - 1) + path;
      assert Slashes(n) + path == "" + ['/'] + rest;
      SplitConcat("", rest, '/');
      NonEmptyConcat([""], Split(rest, '/'));
      LeadingSlashes(n - 1, path);
    }
  }

  lemma SegmentThenSlash(segment: string, rest: string)
    requires segment != "" && '/' !in segment
    ensures Segments(segment + ['/'] + rest) == [segment] + Segments(rest)
  {
    SplitFree(segment, '/');
    SplitConcat(segment, rest, '/');
    NonEmptyConcat([segment], Split(rest, '/'));
  }

  /** However many slashes separate them, the segments of a route are found again. */
  lemma {:induction false} SegmentsOfRoute(segments: seq<string>, slashes: seq<nat>)
    requires RouteSegments(segments) && Spacing(segments, slashes)
    ensures Segments(Route(segments, slashes)) == segments
  {
    if segments == [] {
      LeadingSlashes(slashes[0], "");
      assert Slashes(slashes[0]) + "" == Slashes(slashes[0]);
    } else {
      var tail := Route(segments[1..], slashes[1..]);
      assert forall s :: s in segments[1..] ==> s in segments;
      SegmentsOfRoute(segments[1..], slashes[1..]);
      LeadingSlashes(slashes[0], segments[0] + tail);
      assert Slashes(slashes[0]) + segments[0] + tail == Slashes(slashes[0]) + (segments[0] + tail);
      SegmentThenTail(segments, slashes);
      assert segments == [segments[0]] + segments[1..];
    }
  }

  lemma SegmentThenTail(segments: seq<string>, slashes: seq<nat>)
    requires segments != [] && RouteSegments(segments) && Spacing(segments, slashes)
    ensures
      var tail := Route(segments[1..], slashes[1..]);
      Segments(segments[0] + tail) == [segments[0]] + Segments(tail)
  {
    var tail := Route(segments[1..], slashes[1..]);
    if slashes[1] == 0 {
      assert segments[1..] == [];
      assert segments[0] + tail == segments[0];
      SplitFree(segments[0], '/');
    } else {
      assert tail[0] == '/' && tail == "" + ['/'] + tail[1..];
      assert segments[0] + tail == segments[0] + ['/'] + tail[1..];
      assert segments[0] in segments;
      SegmentThenSlash(segments[0], tail[1..]);
      LeadingSlashes(1, tail[1..]);
      assert Slashes(1) + tail[1..] == tail;
    }
  }

  /**
   A tenant route built from plain segments gives back the tenant, the module and the handler
   path, whatever the number of slashes anywhere in it.
   */
  lemma TenantRouteRecovered(tenantId: string, name: string, rest: seq<string>, slashes: seq<nat>, decode: Decoder)
    requires RouteSegments([tenantId, name] + rest) && Spacing([tenantId, name] + rest, slashes)
    requires '%' !in tenantId && '%' !in name
    ensures ParseModulePathRoute(Route([tenantId, name] + rest, slashes), decode)
         == Some((Tenant(tenantId, name), if rest == [] then "/" else "/" + Join(rest, '/')))
  {
    var segments := [tenantId, name] + rest;
    SegmentsOfRoute(segments, slashes);
    assert segments[2..] == rest;
    assert Segments("") == [];
  }

  lemma {:induction false} NonEmptyMembers(parts: seq<string>, s: string)
    ensures s in NonEmpty(parts) <==> s in parts && s != ""
  {
    if parts != [] {
      NonEmptyMembers(parts[1..], s);
      assert parts == [parts[0]] + parts[1..];
    }
  }

  lemma {:induction false} NonEmptyKeepsAll(parts: seq<string>)
    requires forall s :: s in parts ==> s != ""
    ensures NonEmpty(parts) == parts
  {
    if parts != [] {
      assert parts == [parts[0]] + parts[1..];
      assert parts[0] in parts && forall s :: s in parts[1..] ==> s in parts;
      NonEmptyKeepsAll(parts[1..]);
    }
  }

  /** Segments hold no slash and are not empty. */
  lemma SegmentsArePlain(path: string)
    ensures RouteSegments(Segments(path))
  {
    forall s | s in Segments(path) ensures s != "" && '/' !in s {
      NonEmptyMembers(Split(path, '/'), s);
      JoinSplit(path, '/');
    }
  }

  /** Segments joined by single slashes are found again. */
  lemma SegmentsOfJoined(segments: seq<string>)
    requires segments != [] && RouteSegments(segments)
    ensures Segments("/" + Join(segments, '/')) == segments
  {
    SplitJoin(segments, '/');
    NonEmptyKeepsAll(segments);
    assert Slashes(1) + Join(segments, '/') == "/" + Join(segments, '/');
    LeadingSlashes(1, Join(segments, '/'));
  }

  /**
   On every path, whatever its slashes: the first two segments name the tenant module, and the
   handler path has exactly the other ones, so reading it again loses nothing and adds nothing.
   */
  lemma HandlerPathKeepsSegments(runPath: string, decode: Decoder)
    requires |Segments(runPath)| >= 2
    ensures
      var segments, route := Segments(runPath), ParseModulePathRoute(runPath, decode);
      && route.Some? && route.value.0 == Tenant(if '%' in segments[0] then decode(segments[0]) else segments[0],
                                  if '%' in segments[1] then decode(segments[1]) else segments[1])
      && Segments(route.value.1) == segments[2..]
  {
    var segments := Segments(runPath);
    SegmentsArePlain(runPath);
    assert Segments("") == [];
    if |segments| > 2 {
      assert forall s :: s in segments[2..] ==> s in segments;
      SegmentsOfJoined(segments[2..]);
    } else {
      LeadingSlashes(1, "");
      assert Slashes(1) + "" == "/";
    }
  }

  /** A route of one segment is a platform module, and a route of slashes only is no module at all. */
  lemma ShortRoutes(name: string, slashes: seq<nat>, decode: Decoder)
    requires name != "" && '/' !in name && |slashes| == 2
    ensures ParseModulePathRoute(Slashes(slashes[0]), decode) == None
    ensures ParseModulePathRoute(Route([name], slashes), decode)
         == Some((Platform(if '%' in name then decode(name) else name), "/"))
  {
    assert Route([], [slashes[0]]) == Slashes(slashes[0]);
    SegmentsOfRoute([], [slashes[0]]);
    SegmentsOfRoute([name], slashes);
    assert Segments("") == [];
  }
}

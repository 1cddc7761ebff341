/**
 Names of modules and the keys made from them (src/runtime/module_path.rs), with the name
 check that guards both lookups (src/runtime/security/module.rs).
 */
module ModulePath {
  import opened Wrappers
  import opened Strings

  datatype ModulePath = Platform(name: string) | Tenant(tenantId: string, name: string)

  /** A file system path as its components. */
  type Path = seq<string>

  function FromUrlSegment(segment: string): ModulePath {
    match IndexOf(segment, '/')
    case None => Platform(segment)
    case Some(slash) =>
      var first, rest := segment[..slash], segment[slash + 1..];
      if '/' !in rest && first != "" && rest != "" then Tenant(first, rest) else Platform(segment)
  }

  function CacheKey(m: ModulePath): string {
    match m
    case Platform(name) => name
    case Tenant(tenantId, name) => "tenant:" + tenantId + "/" + name
  }

  function HandlerName(m: ModulePath): string {
    match m
    case Platform(name) => name
    case Tenant(tenantId, name) => tenantId + "/" + name
  }

  /** `Display` prints the same text as the handler name. */
  function Display(m: ModulePath): string {
    HandlerName(m)
  }

  function WasmPath(m: ModulePath, modulesDir: Path, userModulesDir: Option<Path>): Option<Path> {
    match m
    case Platform(name) => Some(modulesDir + [name + ".wasm"])
    case Tenant(tenantId, name) =>
      if userModulesDir.Some? then Some(userModulesDir.value + [tenantId, name + ".wasm"]) else None
  }

  // ---- The name check ----

  datatype ModuleNameError =
    EmptyName | NullByte | PathSeparator | SpecialDirectory | TooLong | ControlCharacter

  /** Bytes of the UTF-8 encoding, which is what the length limit counts. */
  function Utf8Length(s: string): nat {
    if s == "" then 0
    else
      var c := s[0] as int;
      (if c < 0x80 then 1 else if c < 0x800 then 2 else if c < 0x1_0000 then 3 else 4) + Utf8Length(s[1..])
  }

  predicate IsControl(c: char) {
    (c as int) < 0x20 || 0x7f <= (c as int) < 0xa0
  }

  const NUL := 0 as char

  function SanitizeModuleName(name: string): Result<string, ModuleNameError> {
    if name == "" then Err(EmptyName)
    else if NUL in name then Err(NullByte)
    else if '/' in name || '\\' in name then Err(PathSeparator)
    else if name == "." || name == ".." then Err(SpecialDirectory)
    else if Utf8Length(name) > 255 then Err(TooLong)
    else if exists i :: 0 <= i < |name| && IsControl(name[i]) then Err(ControlCharacter)
    else Ok(name)
  }

  /** Every part of the path passes the name check, as both lookups require. */
  predicate Sanitary(m: ModulePath) {
    SanitizeModuleName(m.name).Ok? && (m.Tenant? ==> SanitizeModuleName(m.tenantId).Ok?)
  }

  /** A character that may stand in a name: printable, and no path separator. */
  predicate Acceptable(c: char) {
    (0x20 <= c as int < 0x7f || 0xa0 <= c as int) && c != '/' && c != '\\'
  }

  /** The names that pass, said of their characters. */
  lemma AcceptedIff(name: string)
    ensures SanitizeModuleName(name).Ok? <==>
              && name != "" && name != "." && name != ".." && Utf8Length(name) <= 255
              && forall i :: 0 <= i < |name| ==> Acceptable(name[i])
    ensures SanitizeModuleName(name).Ok? ==> SanitizeModuleName(name) == Ok(name)
  {
    if forall i :: 0 <= i < |name| ==> Acceptable(name[i]) {
      assert NUL !in name && '/' !in name && '\\' !in name;
    }
  }

  /** How many characters have at least this code point. */
  function AtLeast(s: string, code: int): nat {
    if s == "" then 0 else (if s[0] as int >= code then 1 else 0) + AtLeast(s[1..], code)
  }

  /** One byte for each character, and one more for each bound that it reaches. */
  lemma {:induction false} Utf8LengthCounts(s: string)
    ensures Utf8Length(s) == |s| + AtLeast(s, 0x80) + AtLeast(s, 0x800) + AtLeast(s, 0x1_0000)
  {
    if s != "" {
      Utf8LengthCounts(s[1..]);
    }
  }

  // ---- Files ----

  lemma WasmNameInjective(name: string, name': string)
    requires name + ".wasm" == name' + ".wasm"
    ensures name == name'
  {
    assert (name + ".wasm")[..|name + ".wasm"| - 5] == name;
    assert (name' + ".wasm")[..|name' + ".wasm"| - 5] == name';
  }

  /**
   Where a module's file is: under the modules directory by its name, or under the user directory
   by tenant and name; and whose files are one: only a tenant that the modules directory belongs
   to shares with the platform.
   */
  lemma SameFileIff(m: ModulePath, m': ModulePath, modulesDir: Path, userDir: Path)
    ensures
      WasmPath(m, modulesDir, Some(userDir)) ==
        Some(if m.Tenant? then userDir + [m.tenantId, m.name + ".wasm"] else modulesDir + [m.name + ".wasm"])
    ensures
      WasmPath(m, modulesDir, Some(userDir)) == WasmPath(m', modulesDir, Some(userDir)) <==>
        || m == m'
        || (m.name == m'.name && m.Tenant? && m'.Platform? && modulesDir == userDir + [m.tenantId])
        || (m.name == m'.name && m'.Tenant? && m.Platform? && modulesDir == userDir + [m'.tenantId])
  {
    var path, path' := WasmPath(m, modulesDir, Some(userDir)).value, WasmPath(m', modulesDir, Some(userDir)).value;
    var dir := if m.Tenant? then userDir + [m.tenantId] else modulesDir;
    var dir' := if m'.Tenant? then userDir + [m'.tenantId] else modulesDir;
    assert path == dir + [m.name + ".wasm"] && path' == dir' + [m'.name + ".wasm"];
    if path == path' {
      assert path[|path| - 1] == path'[|path'| - 1];
      WasmNameInjective(m.name, m'.name);
      assert path[..|path| - 1] == dir && path'[..|path'| - 1] == dir';
      if m.Tenant? && m'.Tenant? {
        assert dir[|dir| - 1] == dir'[|dir'| - 1];
      }
    }
  }

  // ---- Printing and parsing ----

  /** Parsing never loses text: what it returns prints as the segment it came from. */
  lemma DisplayOfParsed(segment: string)
    ensures Display(FromUrlSegment(segment)) == segment
  {
    match IndexOf(segment, '/')
    case None =>
    case Some(slash) => assert segment == segment[..slash] + "/" + segment[slash + 1..];
  }

  /** A platform name that looks like `tenant/module` is the one that prints ambiguously. */
  predicate LooksLikeTenant(name: string) {
    var parts := Split(name, '/');
    |parts| == 2 && parts[0] != "" && parts[1] != ""
  }

  predicate PrintsUnambiguously(m: ModulePath) {
    match m
    case Platform(name) => !LooksLikeTenant(name)
    case Tenant(tenantId, name) => tenantId != "" && name != "" && '/' !in tenantId && '/' !in name
  }

  lemma LooksLikeTenantIffParsed(name: string)
    ensures LooksLikeTenant(name) <==> FromUrlSegment(name).Tenant?
  {
    match IndexOf(name, '/')
    case None =>
      SplitFree(name, '/');
    case Some(slash) =>
      var first, rest := name[..slash], name[slash + 1..];
      assert name == first + ['/'] + rest;
      SplitFree(first, '/');
      SplitConcat(first, rest, '/');
      if '/' !in rest {
        SplitFree(rest, '/');
      } else {
        var parts := Split(rest, '/');
        JoinSplit(rest, '/');
      }
  }

  /** Printing then parsing is the identity exactly for paths that print unambiguously. */
  lemma ParseOfDisplayIff(m: ModulePath)
    ensures FromUrlSegment(Display(m)) == m <==> PrintsUnambiguously(m)
  {
    match m
    case Platform(name) =>
      LooksLikeTenantIffParsed(name);
    case Tenant(tenantId, name) =>
      if '/' !in tenantId {
        SplitAtFirstSlash(tenantId, name);
      } else {
        var r := FromUrlSegment(Display(m));
        if r.Tenant? {
          assert '/' !in r.tenantId;
        }
      }
  }

  // ---- Keys ----

  lemma TenantKeyHasSlash(m: ModulePath)
    requires m.Tenant?
    ensures '/' in CacheKey(m) && '/' in HandlerName(m)
  {
    assert CacheKey(m)[|"tenant:" + m.tenantId|] == '/';
    assert HandlerName(m)[|m.tenantId|] == '/';
  }

  lemma SlashPairInjective(a: string, b: string, a': string, b': string)
    requires '/' !in a && '/' !in a'
    requires a + "/" + b == a' + "/" + b'
    ensures a == a' && b == b'
  {
    SplitAtFirstSlash(a, b);
    SplitAtFirstSlash(a', b');
  }

  lemma SlashPairIff(a: string, b: string, a': string, b': string)
    requires '/' !in a && '/' !in a'
    ensures a + "/" + b == a' + "/" + b' <==> a == a' && b == b'
  {
    if a + "/" + b == a' + "/" + b' {
      SlashPairInjective(a, b, a', b');
    }
  }

  /** Two sanitary modules with one cache key are one module; in particular no platform key is a tenant key. */
  lemma CacheKeyInjective(m: ModulePath, m': ModulePath)
    requires Sanitary(m) && Sanitary(m')
    requires CacheKey(m) == CacheKey(m')
    ensures m == m'
  {
    if m.Tenant? {
      TenantKeyHasSlash(m);
    }
    if m'.Tenant? {
      TenantKeyHasSlash(m');
    }
    if m.Tenant? && m'.Tenant? {
      SlashPairInjective("tenant:" + m.tenantId, m.name, "tenant:" + m'.tenantId, m'.name);
      assert ("tenant:" + m.tenantId)[7..] == m.tenantId;
      assert ("tenant:" + m'.tenantId)[7..] == m'.tenantId;
    }
  }

  /**
   Another path has the key of a sanitary module only if it fails the name check, and that
   happens to tenant modules only.
   */
  lemma SharedKeyIff(m: ModulePath, m': ModulePath)
    requires Sanitary(m)
    ensures m' != m && CacheKey(m') == CacheKey(m) ==> !Sanitary(m')
    ensures (exists other: ModulePath :: other != m && CacheKey(other) == CacheKey(m)) <==> m.Tenant?
  {
    if Sanitary(m') && CacheKey(m') == CacheKey(m) {
      CacheKeyInjective(m, m');
    }
    if m.Tenant? {
      assert CacheKey(Platform(CacheKey(m))) == CacheKey(m);
    } else {
      forall other: ModulePath | CacheKey(other) == CacheKey(m) ensures other == m {
        if other.Tenant? {
          TenantKeyHasSlash(other);
        }
      }
    }
  }

  /**
   When the name one module reports as handler is the key another one is cached and checked
   under: for platform modules they agree, and a tenant's handler name is the key of the
   tenant whose id lacks the leading `tenant:`.
   */
  lemma HandlerNameMeetsCacheKeyIff(m: ModulePath, m': ModulePath)
    requires Sanitary(m) && Sanitary(m')
    ensures HandlerName(m) == CacheKey(m') <==>
              || (m.Platform? && m' == m)
              || (m.Tenant? && m'.Tenant? && m.tenantId == "tenant:" + m'.tenantId && m.name == m'.name)
  {
    if m.Tenant? {
      TenantKeyHasSlash(m);
    }
    if m'.Tenant? {
      TenantKeyHasSlash(m');
    }
    if m.Tenant? && m'.Tenant? {
      SlashPairIff(m.tenantId, m.name, "tenant:" + m'.tenantId, m'.name);
    }
  }

  /** A tenant module is never recorded under the key it was checked under. */
  lemma OwnHandlerNameIff(m: ModulePath)
    ensures HandlerName(m) == CacheKey(m) <==> m.Platform?
  {
    if m.Tenant? {
      assert |HandlerName(m)| != |CacheKey(m)|;
    }
  }
}

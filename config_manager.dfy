/**
 * `ConfigManager` of Python/utils/config_manager.py without its file I/O:
 * the profile registry (create, switch, delete with the rules for
 * "default"), the dotted-key get, set and delete on a profile through the
 * configuration cache, the choice of a format from a file suffix, and the
 * reading of environment values.
 */
module ConfigManagement {
  import opened Wrappers
  import opened Text
  import opened ConfigTree
  import opened ConfigCaching

  // ---------------------------------------------------------------------
  // _detect_format
  // ---------------------------------------------------------------------

  datatype ConfigFormat = Json | Yaml | Toml | Ini | Env | PythonSource

  /** The position of the last `c` in `s`, or -1: Python's `str.rfind`. */
  function LastIndex(s: string, c: char): (i: int)
    ensures -1 <= i < |s|
    ensures i == -1 ==> c !in s
    ensures i >= 0 ==> s[i] == c && c !in s[i + 1..]
    decreases |s|
  {
    if s == [] then -1
    else if s[|s| - 1] == c then |s| - 1
    else
      var i := LastIndex(s[..|s| - 1], c);
      assert i >= 0 ==> s[i + 1..] == s[..|s| - 1][i + 1..] + [s[|s| - 1]];
      i
  }

  /**
   * `PurePosixPath.name`: the last component of a '/'-separated path that is
   * neither empty nor ".", since `Path` drops those when it parses a path;
   * "" when there is none.
   */
  function FileName(path: string): string
    decreases |path|
  {
    var i := LastIndex(path, '/');
    var last := path[i + 1..];
    if last != "" && last != "." then last
    else if i < 0 then ""
    else FileName(path[..i])
  }

  /** `PurePath.suffix` of a file name: from its last dot, unless that dot is first or last. */
  function Suffix(name: string): string {
    var i := LastIndex(name, '.');
    if 0 < i < |name| - 1 then name[i..] else ""
  }

  /** The `format_map` table of `_detect_format`. */
  function FormatOfSuffix(suffix: string): Option<ConfigFormat> {
    if suffix == ".json" then Some(Json)
    else if suffix == ".yaml" || suffix == ".yml" then Some(Yaml)
    else if suffix == ".toml" then Some(Toml)
    else if suffix == ".ini" || suffix == ".cfg" || suffix == ".conf" then Some(Ini)
    else if suffix == ".py" then Some(PythonSource)
    else None
  }

  /** `_detect_format`: the lower-cased suffix looked up in the table, JSON when it is not there. */
  function DetectFormat(path: string): (r: ConfigFormat)
    ensures r != Json ==> Suffix(FileName(path)) != "" && FormatOfSuffix(Lower(Suffix(FileName(path)))) == Some(r)
  {
    var raw := Suffix(FileName(path));
    if raw == "" then
      assert Lower(raw) == "";
      Json
    else FormatOfSuffix(Lower(raw)).GetOr(Json)
  }

  lemma {:induction false} LastIndexOfLower(s: string, c: char)
    requires !('A' <= c <= 'Z') && !('a' <= c <= 'z')
    ensures LastIndex(Lower(s), c) == LastIndex(s, c)
    decreases |s|
  {
    if s != [] {
      var l := Lower(s);
      assert LowerChar(s[|s| - 1]) == c <==> s[|s| - 1] == c;
      assert l[..|l| - 1] == Lower(s[..|s| - 1]);
      LastIndexOfLower(s[..|s| - 1], c);
    }
  }

  lemma LowerSlice(s: string, i: nat)
    requires i <= |s|
    ensures Lower(s)[i..] == Lower(s[i..])
  {
  }

  lemma LowerIdempotent(s: string)
    ensures Lower(Lower(s)) == Lower(s)
  {
  }

  /** Lower-casing a name lower-cases its suffix. */
  lemma SuffixOfLower(name: string)
    ensures Suffix(Lower(name)) == Lower(Suffix(name))
  {
    LastIndexOfLower(name, '.');
    var i := LastIndex(name, '.');
    if 0 < i < |name| - 1 {
      LowerSlice(name, i);
    }
  }

  /** Lower-casing a path lower-cases its file name. */
  lemma {:induction false} FileNameOfLower(path: string)
    ensures FileName(Lower(path)) == Lower(FileName(path))
    decreases |path|
  {
    LastIndexOfLower(path, '/');
    var i := LastIndex(path, '/');
    LowerSlice(path, i + 1);
    var last := path[i + 1..];
    assert Lower(last) == "" <==> last == "";
    assert Lower(last) == "." <==> last == "." by {
      if |last| == 1 {
        assert Lower(last)[0] == LowerChar(last[0]);
      }
    }
    if (last == "" || last == ".") && i >= 0 {
      assert Lower(path)[..i] == Lower(path[..i]);
      FileNameOfLower(path[..i]);
    }
  }

  /** The detected format does not depend on the case of the path. */
  lemma DetectFormatIgnoresCase(path: string)
    ensures DetectFormat(Lower(path)) == DetectFormat(path)
  {
    var name := FileName(path);
    FileNameOfLower(path);
    SuffixOfLower(name);
    LowerIdempotent(Suffix(name));
    assert Lower(Suffix(FileName(Lower(path)))) == Lower(Suffix(name));
  }

  /** A trailing '/' or "/." does not change the file name, as `Path` drops both. */
  lemma FileNameIgnoresTrailing(path: string)
    ensures FileName(path + "/") == FileName(path)
    ensures FileName(path + "/.") == FileName(path)
  {
    assert LastIndex(path + "/", '/') == |path|;
    assert (path + "/")[..|path|] == path;
    var q := path + "/.";
    assert LastIndex(q, '/') == |path| by {
      assert q[..|q| - 1] == path + "/";
    }
    assert q[..|path|] == path;
  }

  /** The last `c` is the one with no `c` after it. */
  lemma LastIndexUnique(u: string, c: char, k: int)
    requires 0 <= k < |u| && u[k] == c
    requires forall m :: k < m < |u| ==> u[m] != c
    ensures LastIndex(u, c) == k
  {
    var i := LastIndex(u, c);
    assert u[k] in u;
    forall m | i < m < |u| ensures u[m] != c {
      assert u[m] == u[i + 1..][m - i - 1];
    }
  }

  lemma LastIndexAppend(s: string, t: string, c: char)
    requires c in t
    ensures LastIndex(s + t, c) == |s| + LastIndex(t, c)
  {
    var j := LastIndex(t, c);
    var u := s + t;
    forall m | |s| + j < m < |u| ensures u[m] != c {
      assert u[m] == t[j + 1..][m - |s| - j - 1];
    }
    LastIndexUnique(u, c, |s| + j);
  }

  /** A name that is a proper component is its own file name, alone or after a directory and a '/'. */
  lemma NameInDirectory(dir: string, name: string)
    requires name != "" && name != "." && '/' !in name
    ensures FileName(name) == name
    ensures FileName(dir + "/" + name) == name
  {
    var t := "/" + name;
    assert forall k :: 1 <= k < |t| ==> t[k] != '/' by {
      forall k | 1 <= k < |t| ensures t[k] != '/' {
        assert t[k] == name[k - 1];
      }
    }
    assert dir + "/" + name == dir + t;
    LastIndexAppend(dir, t, '/');
    assert (dir + t)[|dir| + 1..] == name;
  }

  /** Every suffix of the table is a dot followed by at least two characters that are neither dots nor slashes. */
  lemma TableSuffixShape(t: string)
    requires FormatOfSuffix(t).Some?
    ensures |t| >= 3 && t[0] == '.'
    ensures forall i :: 1 <= i < |t| ==> t[i] != '.' && t[i] != '/'
  {
  }

  /**
   * A file named by a non-empty stem and a suffix of the table, in any case,
   * gets that suffix's format, whatever directory it is in.
   */
  lemma DetectKnownSuffix(dir: string, stem: string, suffix: string)
    requires stem != [] && '/' !in stem && FormatOfSuffix(Lower(suffix)).Some?
    ensures DetectFormat(stem + suffix) == FormatOfSuffix(Lower(suffix)).value
    ensures DetectFormat(dir + "/" + stem + suffix) == FormatOfSuffix(Lower(suffix)).value
  {
    TableSuffixShape(Lower(suffix));
    assert suffix[0] == '.';
    assert forall i :: 1 <= i < |suffix| ==> suffix[i] != '.' && suffix[i] != '/' by {
      forall i | 1 <= i < |suffix| ensures suffix[i] != '.' && suffix[i] != '/' {
        assert Lower(suffix)[i] == LowerChar(suffix[i]);
      }
    }
    SuffixOfName(stem, suffix);
    assert dir + "/" + stem + suffix == dir + "/" + (stem + suffix);
    NameInDirectory(dir, stem + suffix);
  }

  /**
   * A file whose suffix, in any case, is not in the table is read as JSON,
   * whatever directory it is in.
   */
  lemma DetectUnknownSuffix(dir: string, stem: string, suffix: string)
    requires stem != [] && '/' !in stem && |suffix| >= 2 && suffix[0] == '.'
    requires forall i :: 1 <= i < |suffix| ==> suffix[i] != '.' && suffix[i] != '/'
    requires FormatOfSuffix(Lower(suffix)).None?
    ensures DetectFormat(stem + suffix) == Json
    ensures DetectFormat(dir + "/" + stem + suffix) == Json
  {
    SuffixOfName(stem, suffix);
    assert dir + "/" + stem + suffix == dir + "/" + (stem + suffix);
    NameInDirectory(dir, stem + suffix);
  }

  /** A file without a suffix ("Makefile", or ".env" whose only dot comes first) is read as JSON. */
  lemma DetectNoSuffix(dir: string, name: string)
    requires name != "" && name != "." && '/' !in name && '.' !in name[1..]
    ensures DetectFormat(name) == Json
    ensures DetectFormat(dir + "/" + name) == Json
  {
    NameInDirectory(dir, name);
    assert forall k :: 1 <= k < |name| ==> name[k] != '.' by {
      forall k | 1 <= k < |name| ensures name[k] != '.' {
        assert name[k] == name[1..][k - 1];
      }
    }
    var i := LastIndex(name, '.');
    assert i <= 0;
    assert Suffix(name) == "";
    assert Lower(Suffix(name)) == "";
    assert FormatOfSuffix("") == None;
  }

  /** A '/'-free name made of a non-empty stem and a dot-led ending without further dots has that ending as its suffix. */
  lemma SuffixOfName(stem: string, suffix: string)
    requires stem != [] && |suffix| >= 2 && suffix[0] == '.'
    requires '/' !in stem && forall i :: 1 <= i < |suffix| ==> suffix[i] != '.' && suffix[i] != '/'
    ensures Suffix(stem + suffix) == suffix
  {
    var p := stem + suffix;
    assert '.' !in suffix[1..];
    assert LastIndex(suffix, '.') == 0;
    LastIndexAppend(stem, suffix, '.');
    assert p[|stem|..] == suffix;
  }

  // ---------------------------------------------------------------------
  // EnvironmentLoader._parse_value
  // ---------------------------------------------------------------------

  /** `_parse_value`: booleans in any case, then a float when a dot is present, then an int, else the text. */
  function ParseEnvValue(value: string): (r: Scalar)
    ensures !r.Null?
    ensures r.Int? ==> '.' !in value && ParseInt(value) == Some(r.i)
    ensures r.FloatOrText? ==> '.' in value && r.text == value
    ensures r.Str? ==> '.' !in value && ParseInt(value).None? && r.s == value
  {
    var lowered := Lower(value);
    if lowered == "true" || lowered == "false" then Bool(lowered == "true")
    else if '.' in value then FloatOrText(value)
    else match ParseInt(value)
      case Some(i) => Int(i)
      case None => Str(value)
  }

  /** `str(b)` for a Python bool. */
  function BoolText(b: bool): string {
    if b then "True" else "False"
  }

  /** A bool written by Python reads back as that bool. */
  lemma ParseEnvBool(b: bool)
    ensures ParseEnvValue(BoolText(b)) == Bool(b)
  {
    assert Lower("True") == "true";
    assert Lower("False") == "false";
  }

  /** A value reads as a bool exactly when it is "true" or "false" in any case, and then as true only for "true". */
  lemma ParseEnvBoolIff(value: string)
    ensures ParseEnvValue(value).Bool? <==> Lower(value) == "true" || Lower(value) == "false"
    ensures ParseEnvValue(value).Bool? ==> ParseEnvValue(value).b == (Lower(value) == "true")
  {
  }

  /** An int written by Python reads back as that int. */
  lemma ParseEnvInt(i: int)
    ensures ParseEnvValue(IntToString(i)) == Int(i)
  {
    var s := IntToString(i);
    var m: nat := if i < 0 then -i else i;
    assert forall j :: 0 <= j < |NatToString(m)| ==> IsDigit(NatToString(m)[j]);
    assert forall j :: 0 <= j < |s| ==> IsDigit(s[j]) || s[j] == '-';
    assert '.' !in s;
    assert Lower(s)[0] == s[0];
    ParseIntOfString(i);
  }

  // ---------------------------------------------------------------------
  // Profiles and the dotted-key operations on them
  // ---------------------------------------------------------------------

  const DefaultProfile := "default"

  datatype ProfileError = AlreadyExists | NotFound | CannotDeleteDefault

  /** The key under which `get` caches a profile's value. */
  function CacheKey(profile: string, key: string): string {
    profile + "." + key
  }

  class ConfigManager {
    var profiles: map<string, Config>
    var activeProfile: string
    const cache: ConfigCache

    ghost predicate Valid()
      reads this, cache
    {
      DefaultProfile in profiles && activeProfile in profiles && cache.Valid()
    }

    /** `__init__`: a "default" profile holding what the environment loader read, and an empty cache. */
    constructor(envConfig: Config, cacheMaxSize: int, cacheTtl: int)
      ensures Valid() && fresh(cache)
      ensures profiles == map[DefaultProfile := envConfig] && activeProfile == DefaultProfile
      ensures cache.State() == CacheState(map[], map[], [])
    {
      profiles := map[DefaultProfile := envConfig];
      activeProfile := DefaultProfile;
      cache := new ConfigCache(cacheMaxSize, cacheTtl);
    }

    /** `create_profile`: refused for a name already taken. */
    method CreateProfile(name: string, config: Config) returns (r: Result<(), ProfileError>)
      requires Valid()
      modifies this
      ensures Valid() && activeProfile == old(activeProfile)
      ensures name in old(profiles) ==> r == Err(AlreadyExists) && profiles == old(profiles)
      ensures name !in old(profiles) ==> r.Ok? && profiles == old(profiles)[name := config]
    {
      if name in profiles {
        return Err(AlreadyExists);
      }
      profiles := profiles[name := config];
      return Ok(());
    }

    /** `switch_profile`: refused for an unknown name; otherwise the cache is emptied. */
    method SwitchProfile(name: string) returns (r: Result<(), ProfileError>)
      requires Valid()
      modifies this, cache
      ensures Valid() && profiles == old(profiles)
      ensures name !in profiles ==>
        r == Err(NotFound) && activeProfile == old(activeProfile) && cache.State() == old(cache.State())
      ensures name in profiles ==> r.Ok? && activeProfile == name && cache.State() == CacheState(map[], map[], [])
    {
      if name !in profiles {
        return Err(NotFound);
      }
      activeProfile := name;
      cache.Clear();
      return Ok(());
    }

    /**
     * `delete_profile`: "default" and unknown names are refused; deleting the
     * active profile makes "default" active and empties the cache.
     */
    method DeleteProfile(name: string) returns (r: Result<(), ProfileError>)
      requires Valid()
      modifies this, cache
      ensures Valid()
      ensures name == DefaultProfile ==> r == Err(CannotDeleteDefault) && profiles == old(profiles)
      ensures name != DefaultProfile && name !in old(profiles) ==> r == Err(NotFound) && profiles == old(profiles)
      ensures r.Err? ==> activeProfile == old(activeProfile) && cache.State() == old(cache.State())
      ensures name != DefaultProfile && name in old(profiles) ==>
        && r.Ok? && profiles == old(profiles) - {name}
        && activeProfile == (if old(activeProfile) == name then DefaultProfile else old(activeProfile))
        && cache.State() == (if old(activeProfile) == name then CacheState(map[], map[], []) else old(cache.State()))
    {
      if name == DefaultProfile {
        return Err(CannotDeleteDefault);
      }
      if name !in profiles {
        return Err(NotFound);
      }
      profiles := profiles - {name};
      if activeProfile == name {
        activeProfile := DefaultProfile;
        cache.Clear();
      }
      return Ok(());
    }

    /** The profile an operation addresses: the one named, or the active one. */
    function Target(profile: Option<string>): string
      reads this
    {
      if profile.Some? then profile.value else activeProfile
    }

    /** Whether `get` answers from the cache: a fresh cached value other than None. */
    predicate CacheHit(ck: string, now: int)
      reads this, cache
    {
      ck in cache.cache && now - cache.cache[ck].storedAt < cache.ttl && cache.cache[ck].value != Leaf(Null)
    }

    /**
     * `get`: a cached value other than None is returned as it is; otherwise
     * the value is read from the profile (the default for an unknown profile)
     * and, when the profile exists, cached. The cache's own `get` runs first
     * in every case, so an access time is renewed or a stale entry dropped.
     */
    method Get(key: string, default: Node, profile: Option<string>, now: int) returns (r: Node)
      requires Valid()
      modifies cache
      ensures Valid()
      ensures old(CacheHit(CacheKey(Target(profile), key), now)) ==>
        && r == old(cache.cache)[CacheKey(Target(profile), key)].value
        && cache.State() == AfterGet(old(cache.State()), CacheKey(Target(profile), key), now, cache.ttl)
      ensures !old(CacheHit(CacheKey(Target(profile), key), now)) && Target(profile) !in profiles ==>
        && r == default
        && cache.State() == AfterGet(old(cache.State()), CacheKey(Target(profile), key), now, cache.ttl)
      ensures !old(CacheHit(CacheKey(Target(profile), key), now)) && Target(profile) in profiles ==>
        && (Lookup(Dict(profiles[Target(profile)]), Segments(key)).Some? ==>
              r == Lookup(Dict(profiles[Target(profile)]), Segments(key)).value)
        && (Lookup(Dict(profiles[Target(profile)]), Segments(key)).None? ==> r == default)
        && cache.State() == AfterSet(AfterGet(old(cache.State()), CacheKey(Target(profile), key), now, cache.ttl),
                                     cache.maxSize, CacheKey(Target(profile), key), r, now)
        && CacheKey(Target(profile), key) in cache.cache
        && cache.cache[CacheKey(Target(profile), key)] == Stamped(r, now)
    {
      var name := Target(profile);
      var ck := CacheKey(name, key);
      var cached := cache.Get(ck, now);
      if cached.Some? && cached.value != Leaf(Null) {
        return cached.value;
      }
      if name !in profiles {
        return default;
      }
      r := GetNestedValue(profiles[name], key, default);
      cache.Set(ck, r, now);
    }

    /**
     * `set`: an unknown profile is created empty, the value is written at the
     * dotted key, and the cache forgets that one key.
     */
    method Set(key: string, value: Node, profile: Option<string>) returns (r: Result<(), SetFault>)
      requires Valid()
      modifies this, cache
      ensures Valid() && activeProfile == old(activeProfile)
      ensures var name := old(Target(profile));
        var before := if name in old(profiles) then old(profiles)[name] else map[];
        match Assign(before, Segments(key), value)
        case Ok(after) =>
          && r.Ok? && profiles == old(profiles)[name := after]
          && cache.State() == Dropped(old(cache.State()), CacheKey(name, key))
        case Err(e) =>
          && r == Err(e) && profiles == old(profiles)[name := before]
          && cache.State() == old(cache.State())
    {
      var name := Target(profile);
      if name !in profiles {
        profiles := profiles[name := map[]];
      }
      var written := Assign(profiles[name], Segments(key), value);
      if written.Err? {
        return Err(written.error);
      }
      profiles := profiles[name := written.value];
      cache.Invalidate(CacheKey(name, key));
      return Ok(());
    }

    /**
     * `delete`: false for an unknown profile or a path that is not there;
     * otherwise the key is removed from the profile and from the cache.
     */
    method Delete(key: string, profile: Option<string>) returns (deleted: bool)
      requires Valid()
      modifies this, cache
      ensures Valid() && activeProfile == old(activeProfile)
      ensures var name := old(Target(profile));
        if name in old(profiles) && Remove(old(profiles)[name], Segments(key)).Some? then
          && deleted
          && profiles == old(profiles)[name := Remove(old(profiles)[name], Segments(key)).value]
          && cache.State() == Dropped(old(cache.State()), CacheKey(name, key))
        else
          !deleted && profiles == old(profiles) && cache.State() == old(cache.State())
    {
      var name := Target(profile);
      if name !in profiles {
        return false;
      }
      var removed := Remove(profiles[name], Segments(key));
      if removed.None? {
        return false;
      }
      profiles := profiles[name := removed.value];
      cache.Invalidate(CacheKey(name, key));
      return true;
    }
  }
}

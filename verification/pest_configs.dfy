/**
 * The cache of `Pest.php` configs by directory: which config a test file is under, found by
 * asking the directories above it from the innermost out and reading each at most once.
 */
module PestConfigs {
  import opened Wrappers

  /** What has been read: a directory's config, or that it has none. Directory URIs end in a slash. */
  datatype Configs<+C> = Configs(rootUri: string, dirs: map<string, Option<C>>)

  datatype Looked<+C> = Found(config: Option<C>) | Unchecked(dir: string)

  /** The first `n` characters of `uri` are a directory of it in the workspace. */
  predicate IsDir(uri: string, root: string, n: nat) {
    |root| <= n <= |uri| && n > 0 && uri[n - 1] == '/'
  }

  /** Every directory of `uri` longer than `n` characters was found to have no config. */
  ghost predicate NoneBelow<C>(configs: Configs<C>, uri: string, n: nat) {
    forall m: nat :: n < m && IsDir(uri, configs.rootUri, m) ==>
      uri[..m] in configs.dirs && configs.dirs[uri[..m]] == None
  }

  function LastSlash(uri: string, end: nat): (r: Option<nat>)
    requires end <= |uri|
    ensures r.Some? ==> r.value < end && uri[r.value] == '/'
    ensures forall k :: (if r.Some? then r.value + 1 else 0) <= k < end ==> uri[k] != '/'
  {
    if end == 0 then None else if uri[end - 1] == '/' then Some(end - 1) else LastSlash(uri, end - 1)
  }

  /** From the innermost directory out: the first config known, or the first directory not looked at yet. */
  method Lookup<C>(configs: Configs<C>, uri: string) returns (r: Looked<C>)
    ensures !(configs.rootUri <= uri) ==> r == Found(None)
    ensures configs.rootUri <= uri && r == Found(None) ==> NoneBelow(configs, uri, 0)
    ensures r.Found? && r.config.Some? ==>
              exists n: nat :: IsDir(uri, configs.rootUri, n) && NoneBelow(configs, uri, n)
                          && uri[..n] in configs.dirs && configs.dirs[uri[..n]] == r.config
    ensures r.Unchecked? ==>
              && configs.rootUri <= uri && r.dir <= uri && IsDir(uri, configs.rootUri, |r.dir|)
              && NoneBelow(configs, uri, |r.dir|) && r.dir !in configs.dirs
  {
    if !(configs.rootUri <= uri) {
      return Found(None);
    }
    var end: nat := |uri|;
    while true
      invariant end <= |uri|
      invariant NoneBelow(configs, uri, end)
      decreases end
    {
      var slash := LastSlash(uri, end);
      if slash.None? || slash.value + 1 < |configs.rootUri| {
        return Found(None);
      }
      var dir := uri[..slash.value + 1];
      if dir !in configs.dirs {
        return Unchecked(dir);
      }
      if configs.dirs[dir].Some? {
        return Found(configs.dirs[dir]);
      }
      end := slash.value;
    }
  }

  /** No directory of `uri` longer than `n` characters has a config, and the one of `n`, if `r` is one, has `r`. */
  ghost predicate NearestAt<C>(uri: string, root: string, load: string -> Option<C>, r: Option<C>, n: nat) {
    && (if r.Some? then IsDir(uri, root, n) && load(uri[..n]) == r else n == 0)
    && forall m: nat :: n < m && IsDir(uri, root, m) ==> load(uri[..m]) == None
  }

  /** `r` is the config of the nearest directory above `uri` in the workspace that has one. */
  ghost predicate IsNearest<C>(uri: string, root: string, load: string -> Option<C>, r: Option<C>) {
    exists n: nat :: NearestAt(uri, root, load, r, n)
  }

  ghost function UncheckedDirs<C>(configs: Configs<C>, uri: string): set<string> {
    (set n | 0 <= n <= |uri| :: uri[..n]) - configs.dirs.Keys
  }

  /** The nearest config is one and the same, however it was found. */
  lemma NearestUnique<C>(uri: string, root: string, load: string -> Option<C>, a: Option<C>, b: Option<C>)
    requires IsNearest(uri, root, load, a) && IsNearest(uri, root, load, b)
    ensures a == b
  {
    var i: nat :| NearestAt(uri, root, load, a, i);
    var j: nat :| NearestAt(uri, root, load, b, j);
  }

  /** The directories `segments` name, one below the other. */
  function Below(segments: seq<string>): string {
    if segments == [] then "" else segments[0] + "/" + Below(segments[1..])
  }

  lemma NextDir(uri: string, root: string, segment: string, rest: string, n: nat)
    requires root != "" && root[|root| - 1] == '/' && '/' !in segment && uri == root + segment + "/" + rest
    ensures IsDir(uri, root, n) <==> n == |root| || IsDir(uri, root + segment + "/", n)
  {
    assert uri[|root| - 1] == '/';
    if |root| < n <= |root| + |segment| {
      assert uri[n - 1] == segment[n - 1 - |root|];
    }
  }

  /** The directories of a file are the workspace root and each one on the way down from it, and no others. */
  lemma {:induction false} DirsAre(uri: string, root: string, segments: seq<string>, name: string, n: nat)
    requires root != "" && root[|root| - 1] == '/' && '/' !in name
    requires forall k :: 0 <= k < |segments| ==> '/' !in segments[k]
    requires uri == root + Below(segments) + name
    ensures IsDir(uri, root, n) <==> exists k :: 0 <= k <= |segments| && n == |root| + |Below(segments[..k])|
    decreases |segments|
  {
    if segments == [] {
      assert root + "" + name == root + name;
      assert uri[|root| - 1] == '/';
      if |root| < n <= |uri| {
        assert uri[n - 1] == name[n - 1 - |root|];
      }
      assert segments[..0] == [] && Below([]) == "";
    } else {
      var next := root + segments[0] + "/";
      assert uri == next + Below(segments[1..]) + name == root + segments[0] + "/" + (Below(segments[1..]) + name);
      NextDir(uri, root, segments[0], Below(segments[1..]) + name, n);
      DirsAre(uri, next, segments[1..], name, n);
      hide IsDir;
      DirsShift(segments, |root|, n);
    }
  }

  lemma DirsShift(segments: seq<string>, at: nat, n: nat)
    requires segments != []
    ensures (exists k :: 0 <= k <= |segments| && n == at + |Below(segments[..k])|) <==>
              n == at
              || exists k :: 0 <= k <= |segments| - 1
                             && n == at + |segments[0]| + 1 + |Below(segments[1..][..k])|
  {
    forall k | 0 < k <= |segments|
      ensures |Below(segments[..k])| == |segments[0]| + 1 + |Below(segments[1..][..k - 1])|
    {
      assert segments[..k][1..] == segments[1..][..k - 1];
    }
    assert segments[..0] == [] && |Below([])| == 0;
    hide Below;
    if j :| 0 <= j <= |segments| - 1 && n == at + |segments[0]| + 1 + |Below(segments[1..][..j])| {
      assert n == at + |Below(segments[..j + 1])|;
    }
    if k :| 0 < k <= |segments| && n == at + |Below(segments[..k])| {
      assert n == at + |segments[0]| + 1 + |Below(segments[1..][..k - 1])|;
    }
  }

  class Backend<C> {
    /** The URI of the workspace root with a slash at its end, when there is one. */
    const root: Option<string>
    var configs: Option<Configs<C>>

    constructor (root: Option<string>)
      ensures this.root == root && configs == None
    {
      this.root := root;
      configs := None;
    }

    /** What is cached is what reading the directory now would give. */
    ghost predicate Valid(load: string -> Option<C>)
      reads this
    {
      configs.Some? ==>
        && root == Some(configs.value.rootUri)
        && forall dir :: dir in configs.value.dirs ==> configs.value.dirs[dir] == load(dir)
    }

    /** Whatever was cached before, the answer is the nearest config, and what is cached stays right. */
    method PestConfigFor(uri: string, load: string -> Option<C>) returns (r: Option<C>)
      requires Valid(load)
      modifies `configs
      ensures Valid(load)
      ensures root.None? ==> r == None
      ensures root.Some? && !(root.value <= uri) ==> r == None
      ensures root.Some? && root.value <= uri ==> IsNearest(uri, root.value, load, r)
      ensures old(configs).Some? ==> configs.Some? && old(configs).value.dirs.Keys <= configs.value.dirs.Keys
    {
      while true
        invariant Valid(load)
        invariant old(configs).Some? ==> configs.Some? && old(configs).value.dirs.Keys <= configs.value.dirs.Keys
        decreases configs.None?, if configs.Some? then UncheckedDirs(configs.value, uri) else {}
      {
        if configs.None? {
          if root.None? {
            return None;
          }
          configs := Some(Configs(root.value, map[]));
        } else {
          var looked := Lookup(configs.value, uri);
          match looked
          case Found(config) =>
            if root.value <= uri {
              FoundIsNearest(configs.value, uri, load, config);
            }
            return config;
          case Unchecked(dir) =>
            var before := configs.value;
            configs := Some(before.(dirs := before.dirs[dir := load(dir)]));
            OneFewer(before, uri, dir, load(dir));
        }
      }
    }

    /** Forgets everything, so nothing cached can be wrong, whatever is on disk now. */
    method InvalidatePestConfig(ghost load: string -> Option<C>)
      modifies `configs
      ensures configs == None && Valid(load)
    {
      configs := None;
    }

    /** After the file in one directory changed, forgetting that directory makes the cache right again. */
    method ForgetPestDir(dir: string, ghost before: string -> Option<C>, ghost load: string -> Option<C>)
      requires Valid(before) && forall d :: d != dir ==> before(d) == load(d)
      modifies `configs
      ensures Valid(load)
      ensures configs.Some? == old(configs).Some?
      ensures configs.Some? ==> configs.value == old(configs).value.(dirs := old(configs).value.dirs - {dir})
    {
      if configs.Some? {
        configs := Some(configs.value.(dirs := configs.value.dirs - {dir}));
      }
    }
  }

  ghost predicate Agrees<C>(configs: Configs<C>, load: string -> Option<C>) {
    forall dir :: dir in configs.dirs ==> configs.dirs[dir] == load(dir)
  }

  lemma FoundIsNearest<C>(configs: Configs<C>, uri: string, load: string -> Option<C>, config: Option<C>)
    requires Agrees(configs, load)
    requires config.None? ==> NoneBelow(configs, uri, 0)
    requires config.Some? ==>
               exists n: nat :: IsDir(uri, configs.rootUri, n) && NoneBelow(configs, uri, n)
                           && uri[..n] in configs.dirs && configs.dirs[uri[..n]] == config
    ensures IsNearest(uri, configs.rootUri, load, config)
  {
    var n: nat := 0;
    if config.Some? {
      n :| IsDir(uri, configs.rootUri, n) && NoneBelow(configs, uri, n)
           && uri[..n] in configs.dirs && configs.dirs[uri[..n]] == config;
    }
    forall m: nat | n < m && IsDir(uri, configs.rootUri, m) ensures load(uri[..m]) == None {
      assert uri[..m] in configs.dirs;
    }
    assert NearestAt(uri, configs.rootUri, load, config, n);
  }

  lemma OneFewer<C>(configs: Configs<C>, uri: string, dir: string, config: Option<C>)
    requires dir <= uri && dir !in configs.dirs
    ensures UncheckedDirs(configs.(dirs := configs.dirs[dir := config]), uri) < UncheckedDirs(configs, uri)
  {
    assert dir == uri[..|dir|];
    assert dir in UncheckedDirs(configs, uri);
  }
}

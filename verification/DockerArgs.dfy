/** How src/jail/linux/docker.rs rewrites the arguments of `docker run`. */
module DockerArgs {
  import opened Wrappers

  const NETWORK := "--network"
  const NETWORK_EQ := "--network="

  const FLAGS_WITH_VALUES: set<string> := {"-e", "-v", "-p", "--name", "--entrypoint", "-w", "--user"}

  predicate IsNetworkFlag(arg: string) {
    arg == NETWORK || NETWORK_EQ <= arg
  }

  predicate StartsWithDash(arg: string) {
    arg != [] && arg[0] == '-'
  }

  /** The argument is consumed as the value of the flag before it, if `flags` take values. */
  predicate IsValue(flags: set<string>, args: seq<string>, i: nat)
    requires i < |args|
  {
    i > 0 && args[i - 1] in flags && !IsValue(flags, args, i - 1)
  }

  predicate IsFlagValue(args: seq<string>, i: nat)
    requires i < |args|
  {
    IsValue(FLAGS_WITH_VALUES, args, i)
  }

  /** What is consumed after an argument that is not consumed depends on nothing before it. */
  lemma {:induction false} ValueInSuffix(flags: set<string>, args: seq<string>, n: nat, i: nat)
    requires n + i < |args| && !IsValue(flags, args, n)
    ensures IsValue(flags, args[n..], i) == IsValue(flags, args, n + i)
    decreases i
  {
    if i > 0 {
      ValueInSuffix(flags, args, n, i - 1);
    }
  }

  /** What is consumed depends on nothing after it. */
  lemma {:induction false} ValueInPrefix(flags: set<string>, xs: seq<string>, ys: seq<string>, i: nat)
    requires i < |xs|
    ensures IsValue(flags, xs + ys, i) == IsValue(flags, xs, i)
    decreases i
  {
    if i > 0 {
      ValueInPrefix(flags, xs, ys, i - 1);
    }
  }

  // ----- filter_network_args

  /** Without network flags, and without the value after a bare one. */
  function Filtered(args: seq<string>): seq<string>
    decreases |args|
  {
    if args == [] then []
    else if args[0] == NETWORK then if |args| == 1 then [] else Filtered(args[2..])
    else if IsNetworkFlag(args[0]) then Filtered(args[1..])
    else [args[0]] + Filtered(args[1..])
  }

  method FilterNetworkArgs(dockerArgs: seq<string>) returns (modified: seq<string>)
    ensures modified == Filtered(dockerArgs)
  {
    modified := [];
    var i := 0;
    while i < |dockerArgs|
      invariant 0 <= i
      invariant modified + (if i <= |dockerArgs| then Filtered(dockerArgs[i..]) else []) == Filtered(dockerArgs)
    {
      ghost var rest := dockerArgs[i..];
      assert rest[0] == dockerArgs[i] && rest[1..] == dockerArgs[i + 1..];
      if dockerArgs[i] == NETWORK || NETWORK_EQ <= dockerArgs[i] {
        if dockerArgs[i] == NETWORK {
          assert |rest| > 1 ==> rest[2..] == dockerArgs[i + 2..];
          i := i + 2;
          continue;
        }
      } else {
        assert modified + Filtered(rest) == modified + [dockerArgs[i]] + Filtered(rest[1..]);
        modified := modified + [dockerArgs[i]];
      }
      i := i + 1;
    }
  }

  /** No token of the result is `--network` or starts with `--network=`. */
  lemma {:induction false} NoNetworkLeft(args: seq<string>)
    ensures forall k :: 0 <= k < |Filtered(args)| ==> !IsNetworkFlag(Filtered(args)[k])
    ensures forall k :: 0 <= k < |Filtered(args)| ==>
              Filtered(args)[k] != "--network" && !("--network=" <= Filtered(args)[k])
    decreases |args|
  {
    if args != [] {
      if args[0] == NETWORK {
        if |args| > 1 {
          NoNetworkLeft(args[2..]);
        }
      } else {
        NoNetworkLeft(args[1..]);
      }
    }
  }

  lemma {:induction false} NothingToFilter(args: seq<string>)
    requires forall k :: 0 <= k < |args| ==> !IsNetworkFlag(args[k])
    ensures Filtered(args) == args
    decreases |args|
  {
    if args != [] {
      NothingToFilter(args[1..]);
      assert [args[0]] + args[1..] == args;
    }
  }

  /** The arguments come through unchanged exactly when none of them is a network flag, wherever it
      stands: a flag that belongs to the container's own command is filtered out too. */
  lemma FilterChangesNothingIff(args: seq<string>)
    ensures Filtered(args) == args <==> forall k :: 0 <= k < |args| ==> !IsNetworkFlag(args[k])
  {
    if Filtered(args) == args {
      NoNetworkLeft(args);
    } else if forall k :: 0 <= k < |args| ==> !IsNetworkFlag(args[k]) {
      NothingToFilter(args);
    }
  }

  lemma FilterIsIdempotent(args: seq<string>)
    ensures Filtered(Filtered(args)) == Filtered(args)
  {
    NoNetworkLeft(args);
    NothingToFilter(Filtered(args));
  }

  /** Where each kept token came from. */
  function Origins(args: seq<string>, from: nat): seq<nat>
    decreases |args|
  {
    if args == [] then []
    else if args[0] == NETWORK then if |args| == 1 then [] else Origins(args[2..], from + 2)
    else if IsNetworkFlag(args[0]) then Origins(args[1..], from + 1)
    else [from] + Origins(args[1..], from + 1)
  }

  predicate IsKept(args: seq<string>, i: nat)
    requires i < |args|
  {
    !IsNetworkFlag(args[i]) && !IsValue({NETWORK}, args, i)
  }

  /** `out` is what stands at the positions `o`, which increase.  Positions are counted from `from`. */
  ghost predicate Picks(args: seq<string>, from: nat, o: seq<nat>, out: seq<string>) {
    && |o| == |out|
    && (forall k :: 0 <= k < |o| ==> from <= o[k] < from + |args| && out[k] == args[o[k] - from])
    && (forall j, k :: 0 <= j < k < |o| ==> o[j] < o[k])
  }

  /** `o` lists exactly the positions that are kept. */
  ghost predicate ListsKept(args: seq<string>, from: nat, o: seq<nat>) {
    forall p :: from <= p < from + |args| ==> (p in o <==> IsKept(args, p - from))
  }

  lemma KeptInSuffix(args: seq<string>, n: nat, i: nat)
    requires n <= i < |args| && !IsValue({NETWORK}, args, n)
    ensures IsKept(args[n..], i - n) == IsKept(args, i)
  {
    ValueInSuffix({NETWORK}, args, n, i - n);
    assert args[n..][i - n] == args[i];
  }

  lemma ListsKeptInSuffix(args: seq<string>, from: nat, n: nat, o: seq<nat>, p: nat)
    requires n <= |args| && ListsKept(args[n..], from + n, o)
    requires from + n <= p < from + |args| && !IsValue({NETWORK}, args, n)
    ensures p in o <==> IsKept(args, p - from)
  {
    KeptInSuffix(args, n, p - from);
    assert p in o <==> IsKept(args[n..], p - (from + n));
  }

  lemma PicksInSuffix(args: seq<string>, from: nat, n: nat, o: seq<nat>, out: seq<string>)
    requires n <= |args| && Picks(args[n..], from + n, o, out)
    ensures Picks(args, from, o, out)
    ensures forall p :: p in o ==> p >= from + n
  {
    var rest := args[n..];
    forall k | 0 <= k < |o| ensures from <= o[k] < from + |args| && out[k] == args[o[k] - from] {
      assert rest[o[k] - (from + n)] == args[o[k] - from];
    }
  }

  lemma PicksFirst(args: seq<string>, from: nat, o: seq<nat>, out: seq<string>)
    requires args != [] && Picks(args[1..], from + 1, o, out)
    ensures Picks(args, from, [from] + o, [args[0]] + out)
  {
    PicksInSuffix(args, from, 1, o, out);
  }

  lemma SkipsFirst(args: seq<string>, from: nat, n: nat, o: seq<nat>)
    requires 1 <= n <= 2 && n <= |args| && ListsKept(args[n..], from + n, o)
    requires forall p :: p in o ==> p >= from + n
    requires !IsKept(args, 0) && (n == 2 ==> !IsKept(args, 1))
    requires n < |args| ==> !IsValue({NETWORK}, args, n)
    ensures ListsKept(args, from, o)
  {
    forall p | from <= p < from + |args| ensures p in o <==> IsKept(args, p - from) {
      if p >= from + n {
        ListsKeptInSuffix(args, from, n, o, p);
      }
    }
  }

  lemma KeepsFirst(args: seq<string>, from: nat, o: seq<nat>)
    requires args != [] && ListsKept(args[1..], from + 1, o)
    requires args[0] != NETWORK && IsKept(args, 0)
    ensures ListsKept(args, from, [from] + o)
  {
    forall p | from <= p < from + |args| ensures p in [from] + o <==> IsKept(args, p - from) {
      if p > from {
        ListsKeptInSuffix(args, from, 1, o, p);
      } else {
        assert ([from] + o)[0] == from;
      }
    }
  }

  lemma SkipsFlag(args: seq<string>, from: nat, n: nat, o: seq<nat>, out: seq<string>)
    requires n <= |args| && Picks(args[n..], from + n, o, out) && ListsKept(args[n..], from + n, o)
    requires if n == 2 then args[0] == NETWORK else n == 1 && args[0] != NETWORK && IsNetworkFlag(args[0])
    ensures Picks(args, from, o, out) && ListsKept(args, from, o)
  {
    PicksInSuffix(args, from, n, o, out);
    assert n == 2 ==> IsValue({NETWORK}, args, 1);
    SkipsFirst(args, from, n, o);
  }

  lemma KeepsArgument(args: seq<string>, from: nat, o: seq<nat>, out: seq<string>)
    requires args != [] && Picks(args[1..], from + 1, o, out) && ListsKept(args[1..], from + 1, o)
    requires !IsNetworkFlag(args[0])
    ensures Picks(args, from, [from] + o, [args[0]] + out) && ListsKept(args, from, [from] + o)
  {
    PicksFirst(args, from, o, out);
    KeepsFirst(args, from, o);
  }

  /** The result is the argument list at increasing positions: order is kept, nothing is added, and
      the positions left out are exactly those of network flags and of the values they consume. */
  lemma {:induction false} FilterKeepsOrder(args: seq<string>, from: nat)
    ensures Picks(args, from, Origins(args, from), Filtered(args))
    ensures ListsKept(args, from, Origins(args, from))
    decreases |args|
  {
    if args != [] {
      var n := if args[0] == NETWORK then 2 else 1;
      if n <= |args| {
        var o, out := Origins(args[n..], from + n), Filtered(args[n..]);
        FilterKeepsOrder(args[n..], from + n);
        if IsNetworkFlag(args[0]) {
          SkipsFlag(args, from, n, o, out);
        } else {
          KeepsArgument(args, from, o, out);
        }
      }
    }
  }

  // ----- find_image_index

  predicate IsImage(args: seq<string>, i: nat)
    requires i < |args|
  {
    !IsFlagValue(args, i) && !StartsWithDash(args[i])
  }

  lemma ListedFlagsStartWithDash(arg: string)
    requires arg in FLAGS_WITH_VALUES
    ensures StartsWithDash(arg)
  {
  }

  /** The first argument that is neither dash-prefixed nor the value of a listed flag. */
  method FindImageIndex(args: seq<string>) returns (index: Option<nat>)
    ensures index.Some? ==>
              && index.value < |args| && IsImage(args, index.value)
              && forall k :: 0 <= k < index.value ==> !IsImage(args, k)
    ensures index.None? ==> forall k :: 0 <= k < |args| ==> !IsImage(args, k)
  {
    var skipNext := false;
    var i := 0;
    while i < |args|
      invariant 0 <= i <= |args|
      invariant i < |args| ==> skipNext == IsFlagValue(args, i)
      invariant forall k :: 0 <= k < i ==> !IsImage(args, k)
    {
      if skipNext {
        skipNext := false;
        i := i + 1;
        continue;
      }
      if args[i] in FLAGS_WITH_VALUES {
        ListedFlagsStartWithDash(args[i]);
        skipNext := true;
        i := i + 1;
        continue;
      }
      if !StartsWithDash(args[i]) {
        return Some(i);
      }
      i := i + 1;
    }
    return None;
  }

  /** The value behind an option is taken for the image exactly when the option is none of these seven,
      also when Docker knows that it takes a value. */
  lemma UnlistedValueIsImageIff(flag: string, value: string)
    requires StartsWithDash(flag) && !StartsWithDash(value)
    ensures IsImage([flag, value], 1) <==>
            flag != "-e" && flag != "-v" && flag != "-p" && flag != "--name" && flag != "--entrypoint" &&
            flag != "-w" && flag != "--user"
    ensures !IsImage([flag, value], 0)
  {
    assert !IsFlagValue([flag, value], 0);
  }

  // ----- build_docker_command

  /** `cmd.arg("-e").arg("key=value")` for each variable. */
  function EnvArgs(env: seq<(string, string)>): seq<string> {
    if env == [] then [] else EnvArgs(env[..|env| - 1]) + ["-e", env[|env| - 1].0 + "=" + env[|env| - 1].1]
  }

  /** The first SSL_CERT_FILE wins. */
  function CertPath(env: seq<(string, string)>): Option<string> {
    if env == [] then None
    else if CertPath(env[..|env| - 1]).Some? then CertPath(env[..|env| - 1])
    else if env[|env| - 1].0 == "SSL_CERT_FILE" then Some(env[|env| - 1].1)
    else None
  }

  function Mount(path: string): seq<string> {
    ["-v", path + ":" + path + ":ro"]
  }

  function Prefix(jailId: string, env: seq<(string, string)>, parentOf: string -> Option<string>): seq<string> {
    ["run", NETWORK, "httpjail_" + jailId] + EnvArgs(env) +
    match CertPath(env)
    case None => []
    case Some(path) => Mount(path) + match parentOf(path) case Some(dir) => Mount(dir) case None => []
  }

  /** The part of the command that does not come from the user. */
  method AddOwnArgs(jailId: string, env: seq<(string, string)>, parentOf: string -> Option<string>)
    returns (cmd: seq<string>)
    ensures cmd == Prefix(jailId, env, parentOf)
  {
    cmd := ["run", NETWORK, "httpjail_" + jailId];
    var certPath: Option<string> := None;
    var i := 0;
    while i < |env|
      invariant 0 <= i <= |env|
      invariant cmd == ["run", NETWORK, "httpjail_" + jailId] + EnvArgs(env[..i])
      invariant certPath == CertPath(env[..i])
    {
      assert env[..i + 1][..i] == env[..i];
      cmd := cmd + ["-e", env[i].0 + "=" + env[i].1];
      if env[i].0 == "SSL_CERT_FILE" && certPath.None? {
        certPath := Some(env[i].1);
      }
      i := i + 1;
    }
    assert env[..i] == env;
    if certPath.Some? {
      cmd := cmd + Mount(certPath.value);
      var parent := parentOf(certPath.value);
      if parent.Some? {
        cmd := cmd + Mount(parent.value);
      }
    }
  }

  lemma Reassembled(cmd: seq<string>, args: seq<string>, i: nat)
    requires i < |args|
    ensures cmd + args[..i] + [args[i]] + (if |args| > i + 1 then args[i + 1..] else []) == cmd + args
  {
    assert args == args[..i] + [args[i]] + args[i + 1..];
  }

  /** `parentOf` is the parent directory of a path, when there is one and it exists. */
  method BuildDockerCommand(jailId: string, dockerArgs: seq<string>, env: seq<(string, string)>,
                            parentOf: string -> Option<string>)
    returns (command: Option<seq<string>>)
    ensures command.None? <==> forall k :: 0 <= k < |Filtered(dockerArgs)| ==> !IsImage(Filtered(dockerArgs), k)
    ensures command.Some? ==> command.value == Prefix(jailId, env, parentOf) + Filtered(dockerArgs)
  {
    var modified := FilterNetworkArgs(dockerArgs);
    var found := FindImageIndex(modified);
    if found.None? {
      return None;
    }
    var options, image := modified[..found.value], modified[found.value];
    var userCommand := if |modified| > found.value + 1 then modified[found.value + 1..] else [];
    var cmd := AddOwnArgs(jailId, env, parentOf);
    Reassembled(cmd, modified, found.value);
    return Some(cmd + options + [image] + userCommand);
  }

  /** The first value of the variable, at position `k`. */
  predicate FirstCert(env: seq<(string, string)>, k: int, path: string) {
    && 0 <= k < |env| && env[k] == ("SSL_CERT_FILE", path)
    && forall l :: 0 <= l < k ==> env[l].0 != "SSL_CERT_FILE"
  }

  lemma {:induction false} NoCertBefore(env: seq<(string, string)>)
    requires CertPath(env).None?
    ensures forall k :: 0 <= k < |env| ==> env[k].0 != "SSL_CERT_FILE"
    decreases |env|
  {
    if env != [] {
      NoCertBefore(env[..|env| - 1]);
    }
  }

  lemma {:induction false} CertPathIff(env: seq<(string, string)>, path: string)
    ensures CertPath(env) == Some(path) <==> exists k :: FirstCert(env, k, path)
    decreases |env|
  {
    if env != [] {
      var before, n := env[..|env| - 1], |env| - 1;
      CertPathIff(before, path);
      assert env[n] == (env[n].0, env[n].1);
      if CertPath(before).Some? {
        CertPathIff(before, CertPath(before).value);
        var k :| FirstCert(before, k, CertPath(before).value);
        assert FirstCert(env, k, CertPath(before).value);
      } else {
        NoCertBefore(before);
        assert env[n].0 == "SSL_CERT_FILE" ==> FirstCert(env, n, env[n].1);
      }
    }
  }

  lemma {:induction false} EnvArgsAre(env: seq<(string, string)>, k: nat)
    requires k < |env|
    ensures |EnvArgs(env)| == 2 * |env|
    ensures EnvArgs(env)[2 * k] == "-e" && EnvArgs(env)[2 * k + 1] == env[k].0 + "=" + env[k].1
    decreases |env|
  {
    if k < |env| - 1 {
      EnvArgsAre(env[..|env| - 1], k);
    } else if |env| > 1 {
      EnvArgsAre(env[..|env| - 1], 0);
    }
  }

  /** What the container is given: the jail's own network by name, every variable with its value, in order,
      and at the end, if a certificate file is set, the first one and its directory, read-only and at
      the same place as on the host. */
  lemma ContainerIsGiven(jailId: string, env: seq<(string, string)>, parentOf: string -> Option<string>)
    ensures var own := Prefix(jailId, env, parentOf);
            && |own| >= 3 + 2 * |env|
            && own[0] == "run" && own[1] == "--network" && own[2] == "httpjail_" + jailId
            && (forall k :: 0 <= k < |env| ==>
                  own[3 + 2 * k] == "-e" && own[3 + 2 * k + 1] == env[k].0 + "=" + env[k].1)
            && own[3 + 2 * |env|..] ==
               match CertPath(env)
               case None => []
               case Some(path) =>
                 ["-v", path + ":" + path + ":ro"] +
                 match parentOf(path) case None => [] case Some(dir) => ["-v", dir + ":" + dir + ":ro"]
  {
    var own := Prefix(jailId, env, parentOf);
    var start := ["run", NETWORK, "httpjail_" + jailId];
    if env != [] {
      EnvArgsAre(env, 0);
    }
    assert (start + EnvArgs(env))[..3] == start;
    forall k | 0 <= k < |env|
      ensures own[3 + 2 * k] == "-e" && own[3 + 2 * k + 1] == env[k].0 + "=" + env[k].1
    {
      EnvArgsAre(env, k);
      assert own[3 + 2 * k] == EnvArgs(env)[2 * k] && own[3 + 2 * k + 1] == EnvArgs(env)[2 * k + 1];
    }
  }

  // ----- which network the container gets

  /** Docker also knows `--net`, which the filter does not. */
  predicate IsAlias(arg: string) {
    arg == "--net" || "--net=" <= arg
  }

  /** The token selects a network, as Docker reads it; `flags` are the options that take the next
      token as their value. */
  predicate Selects(flags: set<string>, args: seq<string>, i: nat)
    requires i < |args|
  {
    (IsNetworkFlag(args[i]) || IsAlias(args[i])) && !IsValue(flags, args, i)
  }

  /** No value is missing at the end. */
  predicate Closed(flags: set<string>, xs: seq<string>) {
    xs != [] && xs[|xs| - 1] in flags ==> IsValue(flags, xs, |xs| - 1)
  }

  lemma ValueAfter(flags: set<string>, xs: seq<string>, ys: seq<string>, i: nat)
    requires Closed(flags, xs) && i < |ys|
    ensures IsValue(flags, xs + ys, |xs| + i) == IsValue(flags, ys, i)
  {
    if xs != [] {
      ValueInPrefix(flags, xs, ys, |xs| - 1);
    }
    assert !IsValue(flags, xs + ys, |xs|);
    ValueInSuffix(flags, xs + ys, |xs|, i);
    assert (xs + ys)[|xs|..] == ys;
  }

  lemma SelectsInConcat(flags: set<string>, xs: seq<string>, ys: seq<string>, k: nat)
    requires Closed(flags, xs) && k < |xs| + |ys|
    ensures Selects(flags, xs + ys, k) == if k < |xs| then Selects(flags, xs, k) else Selects(flags, ys, k - |xs|)
  {
    if k < |xs| {
      ValueInPrefix(flags, xs, ys, k);
    } else {
      ValueAfter(flags, xs, ys, k - |xs|);
    }
  }

  /** One network is selected, at position 1, and no value is missing at the end. */
  ghost predicate SelectsOwn(flags: set<string>, xs: seq<string>) {
    |xs| >= 2 && Closed(flags, xs) && forall k :: 0 <= k < |xs| ==> (Selects(flags, xs, k) <==> k == 1)
  }

  lemma OptionAdded(flags: set<string>, xs: seq<string>, flag: string, value: string)
    requires SelectsOwn(flags, xs) && flag in flags && !IsNetworkFlag(flag) && !IsAlias(flag)
    ensures SelectsOwn(flags, xs + [flag, value])
  {
    var ys := [flag, value];
    assert !IsValue(flags, ys, 0) && IsValue(flags, ys, 1);
    ValueAfter(flags, xs, ys, 1);
    forall k | 0 <= k < |xs + ys| ensures Selects(flags, xs + ys, k) <==> k == 1 {
      SelectsInConcat(flags, xs, ys, k);
    }
  }

  /** Docker's options that take a value: some set of dash-prefixed tokens with these three in it. */
  predicate DockerFlags(flags: set<string>) {
    {"-e", "-v", NETWORK} <= flags && forall f :: f in flags ==> StartsWithDash(f)
  }

  lemma StartSelectsOwn(flags: set<string>, jailId: string)
    requires DockerFlags(flags)
    ensures SelectsOwn(flags, ["run", NETWORK, "httpjail_" + jailId])
  {
    var xs := ["run", NETWORK, "httpjail_" + jailId];
    assert xs[0] == "run" && !StartsWithDash(xs[0]);
    assert xs[2][0] == 'h';
    assert !IsValue(flags, xs, 1) && IsValue(flags, xs, 2);
  }

  lemma {:induction false} EnvSelectsOwn(flags: set<string>, jailId: string, env: seq<(string, string)>)
    requires DockerFlags(flags)
    ensures SelectsOwn(flags, ["run", NETWORK, "httpjail_" + jailId] + EnvArgs(env))
  {
    var start := ["run", NETWORK, "httpjail_" + jailId];
    StartSelectsOwn(flags, jailId);
    if env == [] {
      assert start + EnvArgs(env) == start;
    } else {
      var before, pair := env[..|env| - 1], ["-e", env[|env| - 1].0 + "=" + env[|env| - 1].1];
      EnvSelectsOwn(flags, jailId, before);
      OptionAdded(flags, start + EnvArgs(before), pair[0], pair[1]);
      assert start + EnvArgs(env) == start + EnvArgs(before) + pair;
    }
  }

  /** Whatever the variables and paths are, httpjail's own part selects exactly the jail's network. */
  lemma PrefixSelectsOwn(flags: set<string>, jailId: string, env: seq<(string, string)>,
                         parentOf: string -> Option<string>)
    requires DockerFlags(flags)
    ensures SelectsOwn(flags, Prefix(jailId, env, parentOf))
  {
    var start := ["run", NETWORK, "httpjail_" + jailId] + EnvArgs(env);
    EnvSelectsOwn(flags, jailId, env);
    match CertPath(env)
    case None => assert Prefix(jailId, env, parentOf) == start;
    case Some(path) =>
      OptionAdded(flags, start, "-v", path + ":" + path + ":ro");
      match parentOf(path)
      case None => assert Prefix(jailId, env, parentOf) == start + Mount(path);
      case Some(dir) =>
        OptionAdded(flags, start + Mount(path), "-v", dir + ":" + dir + ":ro");
        assert Prefix(jailId, env, parentOf) == start + Mount(path) + Mount(dir);
  }

  /** Exactly when the container gets the jail's network only: none of the user's options is the alias.
      The options are the first `n` filtered arguments, for whatever `n` Docker finds its image at. */
  lemma OnlyOwnNetworkIff(flags: set<string>, jailId: string, args: seq<string>, env: seq<(string, string)>,
                          parentOf: string -> Option<string>, n: nat)
    requires DockerFlags(flags) && n <= |Filtered(args)|
    ensures var own := Prefix(jailId, env, parentOf);
            var cmd := own + Filtered(args);
            && |own| >= 2 && Selects(flags, cmd, 1)
            && ((forall k :: 0 <= k < |own| + n && Selects(flags, cmd, k) ==> k == 1) <==>
                  forall k :: 0 <= k < n && IsAlias(Filtered(args)[k]) ==> IsValue(flags, Filtered(args), k))
  {
    var own, user := Prefix(jailId, env, parentOf), Filtered(args);
    PrefixSelectsOwn(flags, jailId, env, parentOf);
    NoNetworkLeft(args);
    SelectsInConcat(flags, own, user, 1);
    forall k | 0 <= k < |own|
      ensures Selects(flags, own + user, k) <==> k == 1
    {
      SelectsInConcat(flags, own, user, k);
    }
    forall k | |own| <= k < |own| + n
      ensures Selects(flags, own + user, k) <==> IsAlias(user[k - |own|]) && !IsValue(flags, user, k - |own|)
    {
      SelectsInConcat(flags, own, user, k);
    }
    if k :| 0 <= k < n && IsAlias(user[k]) && !IsValue(flags, user, k) {
      assert user[k] == user[|own| + k - |own|];
      assert Selects(flags, own + user, |own| + k);
    }
  }

  /** The alias comes through: the container is attached to the host's network as well. */
  lemma AliasSelectsSecondNetwork(flags: set<string>, jailId: string, image: string,
                                  env: seq<(string, string)>, parentOf: string -> Option<string>)
    requires DockerFlags(flags) && image != [] && !StartsWithDash(image)
    ensures var args := ["--net", "host", image];
            var own := Prefix(jailId, env, parentOf);
            && Filtered(args) == args && IsImage(args, 1)
            && |own| >= 2 && Selects(flags, own + args, 1) && Selects(flags, own + args, |own|)
  {
    var args := ["--net", "host", image];
    var own := Prefix(jailId, env, parentOf);
    assert image[0] != '-' && "host"[0] != '-';
    assert forall k :: 0 <= k < 3 ==> !IsNetworkFlag(args[k]) by {
      assert !IsNetworkFlag(args[0]) && !IsNetworkFlag(args[1]) && !IsNetworkFlag(args[2]);
    }
    FilterChangesNothingIff(args);
    PrefixSelectsOwn(flags, jailId, env, parentOf);
    SelectsInConcat(flags, own, args, 1);
    SelectsInConcat(flags, own, args, |own|);
    assert IsAlias(args[0]) && !IsValue(flags, args, 0);
  }
}

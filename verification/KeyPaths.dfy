/**
 Where a released key comes from: `{prefix}/{profile}/{peerId}` under the role's prefix
 (`key_path_for_peer` in mero-kms/src/handlers/get_key.rs), with the prefixes and the
 profile as the configuration loads them (mero-kms/src/config/mod.rs).
 */
module KeyPaths {
  import opened Outcomes
  import opened Text
  import PeerIds

  /** The kind of image a quote's policy entry admits; it picks the key namespace. */
  datatype Role = Node | Agent

  predicate KnownProfile(p: string) {
    p == "debug" || p == "debug-read-only" || p == "locked-read-only"
  }

  const DEFAULT_NODE_PREFIX: string := "merod/storage"
  const DEFAULT_AGENT_PREFIX: string := "mero-agent/storage"
  const TRANSPORT_KEY_PATH: string := "mero-kms/transport/x25519/v1"

  datatype ConfigError = EmptyProfileFile | EmptyProfile | UnknownProfile | ProfilesDisagree | NotThePinnedProfile | SamePrefixes

  /** The settings that reach a key path. */
  datatype Config = Config(profile: string, nodePrefix: string, agentPrefix: string)

  predicate IsSlash(c: char) {
    c == '/'
  }

  /** A namespace prefix without surrounding slashes, or the default. */
  function KeyPrefix(env: Option<string>, fallback: string): string {
    if env.Some? && TrimBoth(env.value, IsSlash) != "" then TrimBoth(env.value, IsSlash) else fallback
  }

  function ParseProfile(raw: string): Result<string, ConfigError> {
    var value := Lower(Trim(raw));
    if value == "" then Err(EmptyProfile)
    else if KnownProfile(value) then Ok(value)
    else Err(UnknownProfile)
  }

  /** The profile the image pins, when it has a profile file. */
  function PinnedProfile(file: Option<string>): Result<Option<string>, ConfigError> {
    if file.None? then Ok(None)
    else if Trim(file.value) == "" then Err(EmptyProfileFile)
    else
      match ParseProfile(Trim(file.value))
      case Ok(p) => Ok(Some(p))
      case Err(e) => Err(e)
  }

  /** The profile the environment asks for; its old name must agree with the new one. */
  function ProfileOverride(modern: Option<string>, legacy: Option<string>): Result<Option<string>, ConfigError> {
    if modern.None? then Ok(legacy)
    else if legacy.Some? && Lower(Trim(modern.value)) != Lower(Trim(legacy.value)) then Err(ProfilesDisagree)
    else Ok(modern)
  }

  /** A pinned profile stands; the environment may only repeat it. */
  function ResolveProfile(pinned: Option<string>, env: Option<string>): Result<string, ConfigError> {
    if pinned.Some? then
      var p := ParseProfile(pinned.value);
      if p.Err? || env.None? then p
      else
        var e := ParseProfile(env.value);
        if e.Err? then e else if e.value != p.value then Err(NotThePinnedProfile) else p
    else if env.Some? && Trim(env.value) != "" then ParseProfile(Trim(env.value))
    else ParseProfile("locked-read-only")
  }

  datatype Env = Env(
    profileFile: Option<string>,
    profile: Option<string>,
    legacyProfile: Option<string>,
    nodePrefix: Option<string>,
    agentPrefix: Option<string>)

  function Load(env: Env): Result<Config, ConfigError> {
    var pinned := PinnedProfile(env.profileFile);
    if pinned.Err? then Err(pinned.error)
    else
      var asked := ProfileOverride(env.profile, env.legacyProfile);
      if asked.Err? then Err(asked.error)
      else
        var profile := ResolveProfile(pinned.value, asked.value);
        if profile.Err? then Err(profile.error)
        else
          var node, agent := KeyPrefix(env.nodePrefix, DEFAULT_NODE_PREFIX), KeyPrefix(env.agentPrefix, DEFAULT_AGENT_PREFIX);
          if agent == node then Err(SamePrefixes) else Ok(Config(profile.value, node, agent))
  }

  function Prefix(c: Config, role: Role): string {
    TrimBoth(if role.Node? then c.nodePrefix else c.agentPrefix, IsSlash)
  }

  function KeyPath(c: Config, role: Role, peer: string): string {
    ((((Prefix(c, role) + "/") + c.profile) + "/") + peer)
  }

  // ---- what loading guarantees ----

  lemma ParsedProfileIsKnown(raw: string)
    ensures ParseProfile(raw).Ok? ==> KnownProfile(ParseProfile(raw).value)
  {
  }

  lemma DefaultsAreTrimmed()
    ensures TrimBoth(DEFAULT_NODE_PREFIX, IsSlash) == DEFAULT_NODE_PREFIX
    ensures TrimBoth(DEFAULT_AGENT_PREFIX, IsSlash) == DEFAULT_AGENT_PREFIX
  {
    assert DEFAULT_NODE_PREFIX[0] == 'm' && DEFAULT_NODE_PREFIX[|DEFAULT_NODE_PREFIX| - 1] == 'e';
    assert DEFAULT_AGENT_PREFIX[0] == 'm' && DEFAULT_AGENT_PREFIX[|DEFAULT_AGENT_PREFIX| - 1] == 'e';
  }

  lemma LoadedPrefixIsTrimmed(env: Option<string>, fallback: string)
    requires TrimBoth(fallback, IsSlash) == fallback
    ensures TrimBoth(KeyPrefix(env, fallback), IsSlash) == KeyPrefix(env, fallback)
  {
    if env.Some? {
      TrimmedIsTrimmed(env.value, IsSlash);
    }
  }

  lemma ResolvedProfileIsKnown(pinned: Option<string>, env: Option<string>)
    ensures ResolveProfile(pinned, env).Ok? ==> KnownProfile(ResolveProfile(pinned, env).value)
  {
    hide ParseProfile, KnownProfile, Trim;
    ParsedProfileIsKnown("locked-read-only");
    if env.Some? {
      ParsedProfileIsKnown(env.value);
      ParsedProfileIsKnown(Trim(env.value));
    }
    if pinned.Some? {
      ParsedProfileIsKnown(pinned.value);
    }
  }

  /**
   Whatever the environment says, a configuration that loads has a known profile and
   prefixes that differ even after the trimming that key paths do.
   */
  lemma LoadedConfig(env: Env)
    requires Load(env).Ok?
    ensures var c := Load(env).value;
            KnownProfile(c.profile) && Prefix(c, Node) != Prefix(c, Agent)
  {
    DefaultsAreTrimmed();
    hide TrimBoth, Trim, Lower, KnownProfile, KeyPrefix, ResolveProfile, PinnedProfile, ProfileOverride;
    LoadedPrefixIsTrimmed(env.nodePrefix, DEFAULT_NODE_PREFIX);
    LoadedPrefixIsTrimmed(env.agentPrefix, DEFAULT_AGENT_PREFIX);
    ResolvedProfileIsKnown(PinnedProfile(env.profileFile).value, ProfileOverride(env.profile, env.legacyProfile).value);
  }

  /** An image that pins its profile runs under it whatever the environment says, or does not start. */
  lemma PinnedProfileStands(env: Env, pinned: string)
    requires Load(env).Ok? && PinnedProfile(env.profileFile) == Ok(Some(pinned))
    ensures Load(env).value.profile == pinned
  {
    hide TrimBoth, Trim, TrimStart, TrimEnd;
    KnownProfileParses(pinned);
  }

  /** A prefix setting as loaded: without surrounding slashes, or the default if nothing else is left of it. */
  ghost predicate PrefixIs(prefix: string, setting: Option<string>, fallback: string) {
    if setting.Some? && TrimBoth(setting.value, IsSlash) != "" then prefix == TrimBoth(setting.value, IsSlash) else prefix == fallback
  }

  /** A profile setting's value: trimmed, in lower case, and one of the three there are. */
  ghost predicate ProfileIs(profile: string, setting: string) {
    profile == Lower(Trim(setting)) && profile in {"debug", "debug-read-only", "locked-read-only"}
  }

  /**
   A configuration that loads, setting by setting. An image that pins its profile in a file
   runs under it, and the environment, under either of its names, can only repeat it;
   without a file the environment chooses, and says nothing or chooses `locked-read-only`.
   */
  lemma LoadedParts(env: Env)
    requires Load(env).Ok?
    ensures var c := Load(env).value;
            var asked := if env.profile.Some? then env.profile else env.legacyProfile;
            && PrefixIs(c.nodePrefix, env.nodePrefix, "merod/storage") && PrefixIs(c.agentPrefix, env.agentPrefix, "mero-agent/storage")
            && c.nodePrefix != c.agentPrefix
            && (env.profile.Some? && env.legacyProfile.Some? ==> Lower(Trim(env.profile.value)) == Lower(Trim(env.legacyProfile.value)))
            && (env.profileFile.Some? ==>
                  ProfileIs(c.profile, env.profileFile.value) && (asked.Some? ==> ProfileIs(c.profile, asked.value)))
            && (env.profileFile.None? && asked.Some? && Trim(asked.value) != "" ==> ProfileIs(c.profile, asked.value))
            && (env.profileFile.None? && (asked.None? || Trim(asked.value) == "") ==> c.profile == "locked-read-only")
  {
    hide TrimBoth, Lower, KnownProfile, ResolveProfile, PinnedProfile, ProfileOverride, PrefixIs;
    PrefixesLoad(env);
    var asked := ProfileOverride(env.profile, env.legacyProfile);
    AskedProfile(env.profile, env.legacyProfile);
    ResolvedProfile(env.profileFile, asked.value);
  }

  predicate IsProfile(setting: string) {
    Lower(Trim(setting)) in {"debug", "debug-read-only", "locked-read-only"}
  }

  /**
   Which settings load: a pinned profile must be one there is, the two names of the
   environment's must agree, and it must repeat the pinned one or, with none pinned, be one
   there is unless it is blank; and the two prefixes must differ.
   */
  lemma LoadsIff(env: Env)
    ensures var asked := if env.profile.Some? then env.profile else env.legacyProfile;
            Load(env).Ok? <==>
              && (env.profileFile.Some? ==> IsProfile(env.profileFile.value))
              && (env.profile.Some? && env.legacyProfile.Some? ==> Lower(Trim(env.profile.value)) == Lower(Trim(env.legacyProfile.value)))
              && (env.profileFile.Some? && asked.Some? ==> Lower(Trim(asked.value)) == Lower(Trim(env.profileFile.value)))
              && (env.profileFile.None? && asked.Some? && Trim(asked.value) != "" ==> IsProfile(asked.value))
              && KeyPrefix(env.nodePrefix, DEFAULT_NODE_PREFIX) != KeyPrefix(env.agentPrefix, DEFAULT_AGENT_PREFIX)
  {
    hide Lower, Trim, KeyPrefix, ResolveProfile, PinnedProfile, IsProfile;
    var asked := if env.profile.Some? then env.profile else env.legacyProfile;
    ProfileResolves(env.profileFile, asked);
  }

  lemma ParsesIff(raw: string)
    ensures ParseProfile(raw).Ok? <==> IsProfile(raw)
    ensures ParseProfile(raw).Ok? ==> ParseProfile(raw).value == Lower(Trim(raw))
  {
    hide Lower, Trim;
  }

  lemma BlankIsNoProfile(raw: string)
    requires Trim(raw) == ""
    ensures !IsProfile(raw)
  {
    assert Lower("") == "";
  }

  lemma ProfileResolves(file: Option<string>, asked: Option<string>)
    ensures PinnedProfile(file).Ok? && ResolveProfile(PinnedProfile(file).value, asked).Ok? <==>
              && (file.Some? ==> IsProfile(file.value))
              && (file.Some? && asked.Some? ==> Lower(Trim(asked.value)) == Lower(Trim(file.value)))
              && (file.None? && asked.Some? && Trim(asked.value) != "" ==> IsProfile(asked.value))
  {
    hide ParseProfile, Trim, Lower, IsProfile, PinnedProfile, ResolveProfile;
    if file.Some? {
      FilePins(file.value);
      if PinnedProfile(file).Ok? {
        PinnedIs(file.value);
        PinnedIsTheFiles(file.value);
        PinnedResolves(Lower(Trim(file.value)), asked);
        SameTextSameProfile(file.value, asked);
      }
    } else {
      NothingPinned();
      EnvResolves(asked);
    }
  }

  lemma FilePins(f: string)
    ensures PinnedProfile(Some(f)).Ok? <==> IsProfile(f)
  {
    hide ParseProfile, Trim, IsProfile;
    ParsesIff(f);
    ParseIgnoresBlanks(f);
    if Trim(f) == "" {
      BlankIsNoProfile(f);
    }
  }

  lemma PinnedResolves(pinned: string, asked: Option<string>)
    requires ParseProfile(pinned) == Ok(pinned)
    ensures ResolveProfile(Some(pinned), asked).Ok? <==> asked.None? || (IsProfile(asked.value) && Lower(Trim(asked.value)) == pinned)
  {
    hide ParseProfile, Trim, Lower, IsProfile;
    if asked.Some? {
      ParsesIff(asked.value);
    }
  }

  lemma EnvResolves(asked: Option<string>)
    ensures ResolveProfile(None, asked).Ok? <==> (asked.Some? && Trim(asked.value) != "" ==> IsProfile(asked.value))
  {
    LockedParses();
    hide ParseProfile, Trim, IsProfile;
    if asked.Some? {
      ParsesIff(asked.value);
      ParseIgnoresBlanks(asked.value);
    }
  }

  lemma PinnedIs(f: string)
    requires PinnedProfile(Some(f)).Ok?
    ensures PinnedProfile(Some(f)).value == Some(Lower(Trim(f)))
  {
    PinnedIsTheFiles(f);
    hide PinnedProfile, ParseProfile;
  }

  lemma SameTextSameProfile(f: string, asked: Option<string>)
    ensures asked.Some? && Lower(Trim(asked.value)) == Lower(Trim(f)) ==> (IsProfile(asked.value) <==> IsProfile(f))
  {
    hide Lower, Trim;
  }

  lemma PrefixesLoad(env: Env)
    ensures PrefixIs(KeyPrefix(env.nodePrefix, DEFAULT_NODE_PREFIX), env.nodePrefix, "merod/storage")
    ensures PrefixIs(KeyPrefix(env.agentPrefix, DEFAULT_AGENT_PREFIX), env.agentPrefix, "mero-agent/storage")
  {
    hide TrimBoth;
  }

  lemma AskedProfile(modern: Option<string>, legacy: Option<string>)
    requires ProfileOverride(modern, legacy).Ok?
    ensures ProfileOverride(modern, legacy).value == if modern.Some? then modern else legacy
    ensures modern.Some? && legacy.Some? ==> Lower(Trim(modern.value)) == Lower(Trim(legacy.value))
  {
    hide Lower, Trim;
  }

  lemma ParsedProfileIs(raw: string)
    requires ParseProfile(raw).Ok?
    ensures ProfileIs(ParseProfile(raw).value, raw) && ProfileIs(ParseProfile(raw).value, Trim(raw))
    ensures ParseProfile(Trim(raw)) == ParseProfile(raw)
  {
    TrimmedIsTrimmed(raw, IsSpace);
    hide TrimBoth, Lower;
  }

  lemma ParseIgnoresBlanks(raw: string)
    ensures ParseProfile(Trim(raw)) == ParseProfile(raw)
  {
    TrimmedIsTrimmed(raw, IsSpace);
    hide TrimBoth, Lower;
  }

  lemma ResolvedProfile(file: Option<string>, asked: Option<string>)
    requires PinnedProfile(file).Ok? && ResolveProfile(PinnedProfile(file).value, asked).Ok?
    ensures var p := ResolveProfile(PinnedProfile(file).value, asked).value;
            && (file.Some? ==> ProfileIs(p, file.value) && (asked.Some? ==> ProfileIs(p, asked.value)))
            && (file.None? && asked.Some? && Trim(asked.value) != "" ==> ProfileIs(p, asked.value))
            && (file.None? && (asked.None? || Trim(asked.value) == "") ==> p == "locked-read-only")
  {
    hide ProfileIs, Trim, ParseProfile, PinnedProfile, ResolveProfile;
    if file.Some? {
      PinnedIsTheFiles(file.value);
      ResolvedFromFile(PinnedProfile(file).value.value, asked);
    } else {
      NothingPinned();
      ResolvedFromEnv(asked);
    }
  }

  lemma NothingPinned()
    ensures PinnedProfile(None) == Ok(None)
  {
  }

  lemma ResolvedFromFile(pinned: string, asked: Option<string>)
    requires ParseProfile(pinned) == Ok(pinned) && ResolveProfile(Some(pinned), asked).Ok?
    ensures ResolveProfile(Some(pinned), asked).value == pinned && (asked.Some? ==> ProfileIs(pinned, asked.value))
  {
    hide ProfileIs, ParseProfile;
    if asked.Some? {
      ParsedProfileIs(asked.value);
    }
  }

  lemma ResolvedFromEnv(asked: Option<string>)
    requires ResolveProfile(None, asked).Ok?
    ensures var p := ResolveProfile(None, asked).value;
            && (asked.Some? && Trim(asked.value) != "" ==> ProfileIs(p, asked.value))
            && (asked.None? || Trim(asked.value) == "" ==> p == "locked-read-only")
  {
    LockedParses();
    hide ProfileIs, ParseProfile, Trim;
    if asked.Some? && Trim(asked.value) != "" {
      ParseIgnoresBlanks(asked.value);
      ParsedProfileIs(asked.value);
    }
  }

  lemma LockedParses()
    ensures ParseProfile("locked-read-only") == Ok("locked-read-only")
  {
    KnownProfileParses("locked-read-only");
    hide ParseProfile;
  }

  lemma PinnedIsTheFiles(f: string)
    requires PinnedProfile(Some(f)).Ok?
    ensures PinnedProfile(Some(f)).value.Some?
    ensures ParseProfile(PinnedProfile(Some(f)).value.value) == Ok(PinnedProfile(Some(f)).value.value)
    ensures ProfileIs(PinnedProfile(Some(f)).value.value, f)
  {
    ParseIgnoresBlanks(f);
    ParsedProfileIs(f);
    ParsedProfileIsKnown(f);
    hide ParseProfile, Trim, KnownProfile, ProfileIs;
    KnownProfileParses(ParseProfile(f).value);
  }

  /** A key path's parts: the role's prefix, the profile and the peer id, between slashes. */
  lemma KeyPathIs(env: Env, peer: string)
    requires Load(env).Ok?
    ensures var c := Load(env).value;
            && NoSlashAround(c.nodePrefix) && NoSlashAround(c.agentPrefix)
            && KeyPath(c, Node, peer) == (((c.nodePrefix + "/") + c.profile) + "/") + peer
            && KeyPath(c, Agent, peer) == (((c.agentPrefix + "/") + c.profile) + "/") + peer
  {
    hide Load, TrimBoth, KeyPath, NoSlashAround;
    LoadedPrefixes(env);
    PathParts(Load(env).value, peer);
  }

  lemma PathParts(c: Config, peer: string)
    requires TrimBoth(c.nodePrefix, IsSlash) == c.nodePrefix && TrimBoth(c.agentPrefix, IsSlash) == c.agentPrefix
    ensures KeyPath(c, Node, peer) == (((c.nodePrefix + "/") + c.profile) + "/") + peer
    ensures KeyPath(c, Agent, peer) == (((c.agentPrefix + "/") + c.profile) + "/") + peer
  {
    hide TrimBoth;
  }

  lemma LoadedPrefixes(env: Env)
    requires Load(env).Ok?
    ensures var c := Load(env).value;
            && TrimBoth(c.nodePrefix, IsSlash) == c.nodePrefix && TrimBoth(c.agentPrefix, IsSlash) == c.agentPrefix
            && NoSlashAround(c.nodePrefix) && NoSlashAround(c.agentPrefix)
  {
    DefaultsAreTrimmed();
    hide TrimBoth, KeyPrefix, PinnedProfile, ProfileOverride, ResolveProfile;
    LoadedPrefixIsTrimmed(env.nodePrefix, DEFAULT_NODE_PREFIX);
    LoadedPrefixIsTrimmed(env.agentPrefix, DEFAULT_AGENT_PREFIX);
    TrimmedHasNoSlash(Load(env).value.nodePrefix);
    TrimmedHasNoSlash(Load(env).value.agentPrefix);
    KeyPrefixIsNotEmpty(env.nodePrefix, DEFAULT_NODE_PREFIX);
    KeyPrefixIsNotEmpty(env.agentPrefix, DEFAULT_AGENT_PREFIX);
  }

  predicate NoSlashAround(p: string) {
    p != "" && p[0] != '/' && p[|p| - 1] != '/'
  }

  lemma TrimmedHasNoSlash(p: string)
    requires TrimBoth(p, IsSlash) == p
    ensures p == "" || NoSlashAround(p)
  {
    TrimmedIsTrimmed(p, IsSlash);
  }

  lemma KeyPrefixIsNotEmpty(env: Option<string>, fallback: string)
    requires fallback != ""
    ensures KeyPrefix(env, fallback) != ""
  {
    hide TrimBoth;
  }

  lemma ProfileEnds(p: string)
    requires KnownProfile(p)
    ensures |p| > 0 && (p[0] == 'd' || p[0] == 'l') && (p[|p| - 1] == 'g' || p[|p| - 1] == 'y')
  {
    if p == "debug" { assert p[0] == 'd' && p[4] == 'g'; }
    else if p == "debug-read-only" { assert p[0] == 'd' && p[14] == 'y'; }
    else { assert p == "locked-read-only" && p[0] == 'l' && p[15] == 'y'; }
  }

  lemma KnownProfileParses(p: string)
    requires KnownProfile(p)
    ensures ParseProfile(p) == Ok(p)
  {
    ProfileEnds(p);
    KnownProfileIsLower(p);
    hide KnownProfile, Lower;
    assert TrimStart(p, IsSpace) == p && Trim(p) == p;
  }

  lemma KnownProfileIsLower(p: string)
    requires KnownProfile(p)
    ensures Lower(p) == p
  {
    if p == "debug" { assert Lower("debug") == "debug"; }
    else if p == "debug-read-only" { assert Lower("debug-read-only") == "debug-read-only"; }
    else { assert Lower("locked-read-only") == "locked-read-only"; }
  }

  // ---- no two keys share a path ----

  lemma NoSlashInAPeerId(peer: string)
    requires PeerIds.Valid(peer)
    ensures '/' !in peer
  {
    assert forall k :: 0 <= k < |peer| ==> PeerIds.Base58(peer[k]);
  }

  /**
   Under every configuration that loads, two releases share a key path only if they are
   for the same role and the same peer, even when prefixes contain slashes.
   */
  lemma KeyPathIsInjective(env: Env, role: Role, peer: string, role': Role, peer': string)
    requires Load(env).Ok? && PeerIds.Valid(peer) && PeerIds.Valid(peer')
    requires KeyPath(Load(env).value, role, peer) == KeyPath(Load(env).value, role', peer')
    ensures role == role' && peer == peer'
  {
    hide Load, Prefix;
    var c := Load(env).value;
    LoadedConfig(env);
    NoSlashInAPeerId(peer);
    NoSlashInAPeerId(peer');
    var (before, before') := ((Prefix(c, role) + "/") + c.profile, (Prefix(c, role') + "/") + c.profile);
    LastPart(before, "/", peer, before', peer');
    SameParts(Prefix(c, role) + "/", c.profile, Prefix(c, role') + "/", c.profile);
    SameParts(Prefix(c, role), "/", Prefix(c, role'), "/");
  }

  lemma TransportPathParts()
    ensures TRANSPORT_KEY_PATH == ("mero-kms/transport/x25519" + "/") + "v1"
    ensures '/' !in "v1"
    ensures var t := "mero-kms/transport/x25519"; t[|t| - 1] == '9'
  {
  }

  /** No peer's key path is the transport key's, whatever prefix is configured. */
  lemma NoKeyPathIsTheTransportPath(env: Env, role: Role, peer: string)
    requires Load(env).Ok? && PeerIds.Valid(peer)
    ensures KeyPath(Load(env).value, role, peer) != TRANSPORT_KEY_PATH
  {
    hide Load, Prefix;
    var c := Load(env).value;
    LoadedConfig(env);
    NoSlashInAPeerId(peer);
    ProfileEnds(c.profile);
    TransportPathParts();
    var (before, t) := ((Prefix(c, role) + "/") + c.profile, "mero-kms/transport/x25519");
    if KeyPath(c, role, peer) == TRANSPORT_KEY_PATH {
      LastPart(before, "/", peer, t, "v1");
      SameEnd(before, t, c.profile);
    }
  }

  lemma SameEnd(s: string, t: string, end: string)
    requires |end| > 0 && |s| >= |end| && s[|s| - |end|..] == end && s == t
    ensures t[|t| - 1] == end[|end| - 1]
  {
  }
}

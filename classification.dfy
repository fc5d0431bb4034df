/**
 * Picking out the playlists the script works on, by exact name: the origin
 * (staging) playlist, the mega (aggregate) playlist and the specific (genre)
 * playlists. The name tests run in that order, so a name equal to the origin
 * name never counts as mega or specific, and one equal to the mega name never
 * counts as specific.
 */
module Classification {
  import opened Wrappers
  import opened Library

  /** The names the script looks for. */
  datatype Config = Config(originName: string, megaName: string, specificNames: seq<string>)

  /** The names written into the script. */
  const DefaultConfig := Config(
    "Purgatoire",
    "MEGA PLAYLIST",
    ["Rock", "Classique", "Rap", "Chiant", "Poubelle", "Trad"])

  datatype Role = Origin | Mega | Specific | Unmatched

  /** The role a playlist with this name gets: origin wins over mega, mega over specific. */
  function RoleOf(cfg: Config, name: string): (r: Role)
    ensures r == Origin <==> name == cfg.originName
    ensures r == Mega <==> name == cfg.megaName && name != cfg.originName
    ensures r == Specific <==>
      name in cfg.specificNames && name != cfg.originName && name != cfg.megaName
  {
    if name == cfg.originName then Origin
    else if name == cfg.megaName then Mega
    else if name in cfg.specificNames then Specific
    else Unmatched
  }

  /** The last playlist of `pls` that gets `role`, if any. */
  function LastWithRole(pls: seq<Playlist>, cfg: Config, role: Role): (r: Option<Playlist>)
    ensures r.None? <==> forall p :: p in pls ==> RoleOf(cfg, p.name) != role
    ensures r.Some? ==> r.value in pls && RoleOf(cfg, r.value.name) == role
    ensures r.Some? ==>
      exists i :: 0 <= i < |pls| && pls[i] == r.value && RoleOf(cfg, r.value.name) == role &&
        forall j :: i < j < |pls| ==> RoleOf(cfg, pls[j].name) != role
  {
    if pls == [] then None
    else
      var last := pls[|pls| - 1];
      var init := pls[..|pls| - 1];
      assert pls == init + [last];
      if RoleOf(cfg, last.name) == role then Some(last)
      else LastWithRole(init, cfg, role)
  }

  /** The playlists of `pls` that get `role`, duplicates included, in order. */
  function WithRole(pls: seq<Playlist>, cfg: Config, role: Role): (r: seq<Playlist>)
    ensures forall p :: p in r <==> p in pls && RoleOf(cfg, p.name) == role
    ensures |r| <= |pls|
  {
    if pls == [] then []
    else
      var last := pls[|pls| - 1];
      var init := pls[..|pls| - 1];
      assert pls == init + [last];
      WithRole(init, cfg, role) + (if RoleOf(cfg, last.name) == role then [last] else [])
  }

  /** A playlist with the role is kept as many times as it is listed; any other is dropped. */
  lemma {:induction false} WithRoleCounts(pls: seq<Playlist>, cfg: Config, role: Role, p: Playlist)
    ensures multiset(WithRole(pls, cfg, role))[p] ==
      if RoleOf(cfg, p.name) == role then multiset(pls)[p] else 0
  {
    if pls != [] {
      var init := pls[..|pls| - 1];
      assert pls == init + [pls[|pls| - 1]];
      WithRoleCounts(init, cfg, role, p);
    }
  }

  /** Selection works piece by piece: the selected playlists stay in listing order. */
  lemma {:induction false} WithRoleConcat(a: seq<Playlist>, b: seq<Playlist>, cfg: Config, role: Role)
    ensures WithRole(a + b, cfg, role) == WithRole(a, cfg, role) + WithRole(b, cfg, role)
  {
    if b == [] {
      assert a + b == a;
    } else {
      var init, last := b[..|b| - 1], b[|b| - 1];
      var tail := if RoleOf(cfg, last.name) == role then [last] else [];
      assert (a + b)[..|a + b| - 1] == a + init;
      assert (a + b)[|a + b| - 1] == last;
      calc {
        WithRole(a + b, cfg, role);
        WithRole(a + init, cfg, role) + tail;
        { WithRoleConcat(a, init, cfg, role); }
        WithRole(a, cfg, role) + WithRole(init, cfg, role) + tail;
        WithRole(a, cfg, role) + WithRole(b, cfg, role);
      }
    }
  }

  /** The last holder of a role in `a + b` is the last in `b`, or else the last in `a`. */
  lemma {:induction false} LastWithRoleConcat(a: seq<Playlist>, b: seq<Playlist>, cfg: Config, role: Role)
    ensures LastWithRole(a + b, cfg, role) ==
      if LastWithRole(b, cfg, role).Some? then LastWithRole(b, cfg, role) else LastWithRole(a, cfg, role)
  {
    if b == [] {
      assert a + b == a;
    } else {
      assert (a + b)[..|a + b| - 1] == a + b[..|b| - 1];
      assert (a + b)[|a + b| - 1] == b[|b| - 1];
      LastWithRoleConcat(a, b[..|b| - 1], cfg, role);
    }
  }

  lemma LastWithRoleSkips(a: seq<Playlist>, p: Playlist, b: seq<Playlist>, cfg: Config, role: Role)
    requires RoleOf(cfg, p.name) != role
    ensures LastWithRole(a + [p] + b, cfg, role) == LastWithRole(a + b, cfg, role)
  {
    assert LastWithRole([p], cfg, role) == None;
    LastWithRoleConcat(a + [p], b, cfg, role);
    LastWithRoleConcat(a, [p], cfg, role);
    LastWithRoleConcat(a, b, cfg, role);
  }

  lemma WithRoleSkips(a: seq<Playlist>, p: Playlist, b: seq<Playlist>, cfg: Config, role: Role)
    requires RoleOf(cfg, p.name) != role
    ensures WithRole(a + [p] + b, cfg, role) == WithRole(a + b, cfg, role)
  {
    calc {
      WithRole(a + [p] + b, cfg, role);
      { WithRoleConcat(a + [p], b, cfg, role); }
      WithRole(a + [p], cfg, role) + WithRole(b, cfg, role);
      { assert (a + [p])[..|a + [p]| - 1] == a; }
      WithRole(a, cfg, role) + WithRole(b, cfg, role);
      { WithRoleConcat(a, b, cfg, role); }
      WithRole(a + b, cfg, role);
    }
  }

  /**
   * A playlist whose name matches no configured name, wherever it is listed,
   * changes neither the origin, nor the mega playlist, nor the specific ones.
   */
  lemma UnmatchedIgnored(a: seq<Playlist>, p: Playlist, b: seq<Playlist>, cfg: Config)
    requires RoleOf(cfg, p.name) == Unmatched
    ensures LastWithRole(a + [p] + b, cfg, Origin) == LastWithRole(a + b, cfg, Origin)
    ensures LastWithRole(a + [p] + b, cfg, Mega) == LastWithRole(a + b, cfg, Mega)
    ensures WithRole(a + [p] + b, cfg, Specific) == WithRole(a + b, cfg, Specific)
  {
    LastWithRoleSkips(a, p, b, cfg, Origin);
    LastWithRoleSkips(a, p, b, cfg, Mega);
    WithRoleSkips(a, p, b, cfg, Specific);
  }

  /**
   * One pass over the playlists: a playlist named as origin replaces the
   * origin found so far, one named as mega replaces the mega found so far,
   * one named as a specific playlist is appended to the specific ones, and
   * any other is skipped.
   */
  method Classify(pls: seq<Playlist>, cfg: Config)
    returns (origin: Option<Playlist>, mega: Option<Playlist>, specific: seq<Playlist>)
    ensures origin == LastWithRole(pls, cfg, Origin)
    ensures mega == LastWithRole(pls, cfg, Mega)
    ensures specific == WithRole(pls, cfg, Specific)
    ensures origin.Some? ==> origin.value in pls && origin.value.name == cfg.originName
    ensures mega.Some? ==> mega.value in pls && mega.value.name == cfg.megaName && cfg.megaName != cfg.originName
    ensures forall p :: p in specific ==>
      p.name in cfg.specificNames && p.name != cfg.originName && p.name != cfg.megaName
  {
    origin, mega, specific := None, None, [];
    for i := 0 to |pls|
      invariant origin == LastWithRole(pls[..i], cfg, Origin)
      invariant mega == LastWithRole(pls[..i], cfg, Mega)
      invariant specific == WithRole(pls[..i], cfg, Specific)
    {
      var p := pls[i];
      assert pls[..i + 1][..i] == pls[..i] && pls[..i + 1][i] == p;
      if p.name == cfg.originName {
        origin := Some(p);
      } else if p.name == cfg.megaName {
        mega := Some(p);
      } else if p.name in cfg.specificNames {
        specific := specific + [p];
      }
    }
    assert pls[..|pls|] == pls;
  }
}

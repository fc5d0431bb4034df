/**
 * The graduation step: tracks that are both in the origin playlist and in
 * some specific playlist are added once to the end of the mega playlist and
 * then removed, every occurrence of them, from the origin playlist.
 */
module Graduation {
  import opened Wrappers
  import opened Library
  import opened Pagination
  import opened Classification

  /** How a run ends. */
  datatype Outcome =
    | ShowedUsage      // no username was given
    | MissingOrigin    // no playlist has the origin name
    | MissingMega      // there were new tracks but no playlist has the mega name
    | NothingDone      // no new tracks
    | Handled(count: nat)

  /** The specific playlists' track lists laid end to end, in playlist order. */
  function SpecificTracks(tracks: map<PlaylistId, seq<TrackId>>, pls: seq<Playlist>): (r: seq<TrackId>)
    requires forall p :: p in pls ==> p.id in tracks
    ensures forall t :: t in r <==> exists p :: p in pls && t in tracks[p.id]
  {
    if pls == [] then []
    else
      var last := pls[|pls| - 1];
      var init := pls[..|pls| - 1];
      assert pls == init + [last];
      SpecificTracks(tracks, init) + tracks[last.id]
  }

  /** Only the specific playlists' own track lists matter. */
  lemma {:induction false} SpecificTracksFrame(
    t0: map<PlaylistId, seq<TrackId>>, t1: map<PlaylistId, seq<TrackId>>, pls: seq<Playlist>)
    requires forall p :: p in pls ==> p.id in t0 && p.id in t1 && t0[p.id] == t1[p.id]
    ensures SpecificTracks(t0, pls) == SpecificTracks(t1, pls)
  {
    if pls != [] {
      var init := pls[..|pls| - 1];
      assert forall p :: p in init ==> p in pls;
      SpecificTracksFrame(t0, t1, init);
    }
  }

  /** The graduating tracks: those of the origin that some specific playlist holds. */
  function NewTracks(origin: seq<TrackId>, specific: seq<TrackId>): (r: set<TrackId>)
    ensures forall t :: t in r <==> t in origin && t in specific
  {
    (set t | t in origin) * (set t | t in specific)
  }

  /** `l` lists each element of `s` exactly once, in some order. */
  ghost predicate IsListing(l: seq<TrackId>, s: set<TrackId>)
  {
    (forall i, j :: 0 <= i < j < |l| ==> l[i] != l[j]) &&
    (forall t :: t in l <==> t in s)
  }

  lemma ListingElements(l: seq<TrackId>, s: set<TrackId>)
    requires IsListing(l, s)
    ensures (set t | t in l) == s
  {
  }

  /**
   * Turns the set of graduating tracks into a list; the order is whatever the
   * set yields, so it is left open here.
   */
  method ListOf(s: set<TrackId>) returns (l: seq<TrackId>)
    ensures IsListing(l, s)
    ensures |l| == |s|
  {
    l := [];
    var rest := s;
    while rest != {}
      invariant rest <= s
      invariant forall t :: t in l <==> t in s && t !in rest
      invariant forall i, j :: 0 <= i < j < |l| ==> l[i] != l[j]
      invariant |l| + |rest| == |s|
      decreases |rest|
    {
      var t :| t in rest;
      l := l + [t];
      rest := rest - {t};
    }
  }

  /**
   * Gathers the tracks of the specific playlists, fetching each playlist's
   * tracks page by page and appending them one by one.
   */
  method CollectTracks(store: Store, specific: seq<Playlist>) returns (acc: seq<TrackId>)
    requires forall p :: p in specific ==> p.id in store.tracks
    ensures acc == SpecificTracks(store.tracks, specific)
  {
    acc := [];
    for i := 0 to |specific|
      invariant acc == SpecificTracks(store.tracks, specific[..i])
    {
      assert specific[..i + 1][..i] == specific[..i];
      var page := GetTrackIds(store.tracks[specific[i].id]);
      ghost var before := acc;
      for j := 0 to |page|
        invariant acc == before + page[..j]
      {
        acc := acc + [page[j]];
        assert page[..j + 1] == page[..j] + [page[j]];
      }
      assert page[..|page|] == page;
    }
    assert specific[..|specific|] == specific;
  }

  /** `after` is `before` followed by a listing of `added`. */
  ghost predicate AppendsListing(before: seq<TrackId>, after: seq<TrackId>, added: set<TrackId>)
  {
    |before| <= |after| && after[..|before|] == before && IsListing(after[|before|..], added)
  }

  /**
   * What one graduation run does to the account `before`, ending with
   * `outcome` and leaving `after`.
   */
  ghost predicate Graduated(before: Account, cfg: Config, outcome: Outcome, after: Account)
  {
    before.Valid() &&
    after.playlists == before.playlists &&
    match LastWithRole(before.playlists, cfg, Origin)
    case None => outcome == MissingOrigin && after == before
    case Some(o) =>
      var specific := WithRole(before.playlists, cfg, Specific);
      var n := NewTracks(before.tracks[o.id], SpecificTracks(before.tracks, specific));
      if n == {} then outcome == NothingDone && after == before
      else match LastWithRole(before.playlists, cfg, Mega)
        case None => outcome == MissingMega && after == before
        case Some(m) => outcome == Handled(|n|) && Promoted(before.tracks, o.id, m.id, n, after.tracks)
  }

  /**
   * `after` is `before` with the tracks `n` appended once each to playlist
   * `m` and removed, every occurrence, from playlist `o`; nothing else changed.
   */
  ghost predicate Promoted(before: map<PlaylistId, seq<TrackId>>, o: PlaylistId, m: PlaylistId,
                           n: set<TrackId>, after: map<PlaylistId, seq<TrackId>>)
  {
    after.Keys == before.Keys && o in before && m in before &&
    AppendsListing(before[m], after[m], n) &&
    after[o] == RemoveAll(before[o], n) &&
    forall id :: id in before && id != o && id != m ==> after[id] == before[id]
  }

  /** Playlists with different roles are different playlists, so they have different ids. */
  lemma RolesApart(a: Account, cfg: Config, x: Playlist, y: Playlist)
    requires a.Valid() && x in a.playlists && y in a.playlists
    requires RoleOf(cfg, x.name) != RoleOf(cfg, y.name)
    ensures x.id != y.id
  {
    if x.id == y.id {
      SameIdSamePlaylist(a, x, y);
    }
  }

  lemma PromotedByUpdates(t: map<PlaylistId, seq<TrackId>>, o: PlaylistId, m: PlaylistId,
                          n: set<TrackId>, added: seq<TrackId>)
    requires o in t && m in t && o != m && IsListing(added, n)
    ensures Promoted(t, o, m, n, t[m := t[m] + added][o := RemoveAll(t[o], n)])
  {
    var after := t[m := t[m] + added][o := RemoveAll(t[o], n)];
    assert after[m] == t[m] + added;
    assert after[m][|t[m]|..] == added;
  }

  /** A run stops without changes when there is nothing to promote or nowhere to put it. */
  lemma UnchangedState(before: Account, cfg: Config, outcome: Outcome)
    requires before.Valid()
    requires match LastWithRole(before.playlists, cfg, Origin)
      case None => outcome == MissingOrigin
      case Some(o) =>
        var n := NewTracks(before.tracks[o.id],
                           SpecificTracks(before.tracks, WithRole(before.playlists, cfg, Specific)));
        if n == {} then outcome == NothingDone
        else LastWithRole(before.playlists, cfg, Mega).None? && outcome == MissingMega
    ensures Graduated(before, cfg, outcome, before)
  {
  }

  /** A run leaves a valid account valid. */
  lemma GraduatedValid(before: Account, cfg: Config, outcome: Outcome, after: Account)
    requires Graduated(before, cfg, outcome, after)
    ensures after.Valid()
  {
  }

  /**
   * Only the origin and the mega playlist can change: the specific playlists
   * and the playlists with no configured name keep their tracks.
   */
  lemma OnlyOriginAndMegaChange(before: Account, cfg: Config, outcome: Outcome, after: Account, p: Playlist)
    requires Graduated(before, cfg, outcome, after)
    requires p in before.playlists && RoleOf(cfg, p.name) in {Specific, Unmatched}
    ensures p.id in after.tracks && after.tracks[p.id] == before.tracks[p.id]
  {
    if outcome.Handled? {
      var o := LastWithRole(before.playlists, cfg, Origin).value;
      var m := LastWithRole(before.playlists, cfg, Mega).value;
      RolesApart(before, cfg, p, o);
      RolesApart(before, cfg, p, m);
    }
  }

  /** After a graduation the origin shares no track with the specific playlists. */
  lemma NothingLeftToGraduate(a0: Account, cfg: Config, n0: nat, a1: Account, o: Playlist)
    requires Graduated(a0, cfg, Handled(n0), a1)
    requires LastWithRole(a0.playlists, cfg, Origin) == Some(o)
    ensures a1.playlists == a0.playlists && o.id in a1.tracks
    ensures forall p :: p in WithRole(a1.playlists, cfg, Specific) ==> p.id in a1.tracks
    ensures NewTracks(a1.tracks[o.id], SpecificTracks(a1.tracks, WithRole(a1.playlists, cfg, Specific))) == {}
  {
    var m := LastWithRole(a0.playlists, cfg, Mega).value;
    var specific := WithRole(a0.playlists, cfg, Specific);
    var n := NewTracks(a0.tracks[o.id], SpecificTracks(a0.tracks, specific));
    assert Promoted(a0.tracks, o.id, m.id, n, a1.tracks);
    forall p | p in specific
      ensures p.id in a1.tracks && a1.tracks[p.id] == a0.tracks[p.id]
    {
      RolesApart(a0, cfg, p, o);
      RolesApart(a0, cfg, p, m);
    }
    SpecificTracksFrame(a0.tracks, a1.tracks, specific);
    var s0 := SpecificTracks(a0.tracks, specific);
    assert a1.tracks[o.id] == RemoveAll(a0.tracks[o.id], n);
    assert forall t :: t in a1.tracks[o.id] ==> t !in s0;
  }

  /**
   * Running again right after a run changes nothing: after a graduation the
   * origin shares no track with the specific playlists, and a run that
   * stopped early would stop at the same point again.
   */
  lemma SecondRunChangesNothing(a0: Account, cfg: Config, o1: Outcome, a1: Account, o2: Outcome, a2: Account)
    requires Graduated(a0, cfg, o1, a1) && Graduated(a1, cfg, o2, a2)
    ensures a2 == a1
    ensures o2 == if o1.Handled? then NothingDone else o1
  {
    GraduatedValid(a0, cfg, o1, a1);
    if o1.Handled? {
      var o := LastWithRole(a0.playlists, cfg, Origin).value;
      NothingLeftToGraduate(a0, cfg, o1.count, a1, o);
    } else {
      assert a1 == a0;
    }
  }

  /**
   * Reads the origin's tracks and the specific playlists' tracks and returns
   * the tracks to graduate.
   */
  method PendingTracks(store: Store, o: Playlist, specific: seq<Playlist>) returns (n: set<TrackId>)
    requires o.id in store.tracks
    requires forall p :: p in specific ==> p.id in store.tracks
    ensures n == NewTracks(store.tracks[o.id], SpecificTracks(store.tracks, specific))
    ensures forall t :: t in n <==>
      t in store.tracks[o.id] && exists p :: p in specific && t in store.tracks[p.id]
  {
    var originTracks := GetTrackIds(store.tracks[o.id]);
    var specificTracks := CollectTracks(store, specific);
    n := NewTracks(originTracks, specificTracks);
  }

  /**
   * Appends the graduating tracks `n` to the mega playlist and removes them
   * from the origin; does nothing when `n` is empty or when there is no mega
   * playlist.
   */
  method Promote(store: Store, o: Playlist, mega: Option<Playlist>, n: set<TrackId>)
    returns (outcome: Outcome)
    requires store.Valid() && o.id in store.tracks
    requires mega.Some? ==> mega.value.id in store.tracks && mega.value.id != o.id
    modifies store
    ensures store.Valid() && store.playlists == old(store.playlists)
    ensures n == {} ==> outcome == NothingDone && store.tracks == old(store.tracks)
    ensures n != {} && mega.None? ==> outcome == MissingMega && store.tracks == old(store.tracks)
    ensures n != {} && mega.Some? ==>
      outcome == Handled(|n|) && Promoted(old(store.tracks), o.id, mega.value.id, n, store.tracks)
  {
    var newTracks := ListOf(n);
    if newTracks == [] {
      return NothingDone;
    }
    if mega.None? {
      return MissingMega;
    }
    var m := mega.value;
    ghost var t := store.tracks;
    ListingElements(newTracks, n);
    store.AddTracks(m.id, newTracks);
    store.RemoveAllOccurrences(o.id, newTracks);
    outcome := Handled(|newTracks|);
    PromotedByUpdates(t, o.id, m.id, n, newTracks);
  }

  /**
   * The graduation part of the script, run against the account held by
   * `store`.
   */
  method Sync(store: Store, cfg: Config) returns (outcome: Outcome)
    requires store.Valid()
    modifies store
    ensures store.Valid()
    ensures Graduated(old(store.State()), cfg, outcome, store.State())
  {
    ghost var before := store.State();
    var pls := GetPlaylists(store.playlists);
    var origin, mega, specific := Classify(pls, cfg);
    if origin.None? {
      UnchangedState(before, cfg, MissingOrigin);
      return MissingOrigin;
    }
    var o := origin.value;
    if mega.Some? {
      RolesApart(before, cfg, o, mega.value);
    }
    var n := PendingTracks(store, o, specific);
    outcome := Promote(store, o, mega, n);
    if n == {} || mega.None? {
      UnchangedState(before, cfg, outcome);
    }
  }
}

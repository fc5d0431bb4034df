/**
 * The part of the user's streaming account the script reads and changes:
 * the list of playlists and, for every playlist, its ordered track ids.
 * The remote service is replaced by the in-memory `Store` below.
 */
module Library {

  type TrackId = string
  type PlaylistId = string

  /** A playlist as the service lists it: its identifier and display name. */
  datatype Playlist = Playlist(id: PlaylistId, name: string)

  /** A snapshot of the account: playlists in service order and each one's tracks. */
  datatype Account = Account(playlists: seq<Playlist>, tracks: map<PlaylistId, seq<TrackId>>)
  {
    /** Every listed playlist has a track list, and no two listed playlists share an id. */
    ghost predicate Valid()
    {
      (forall p :: p in playlists ==> p.id in tracks) &&
      (forall i, j :: 0 <= i < j < |playlists| ==> playlists[i].id != playlists[j].id)
    }
  }

  /** In a valid account, a playlist is determined by its id. */
  lemma SameIdSamePlaylist(a: Account, p: Playlist, q: Playlist)
    requires a.Valid() && p in a.playlists && q in a.playlists && p.id == q.id
    ensures p == q
  {
    var i :| 0 <= i < |a.playlists| && a.playlists[i] == p;
    var j :| 0 <= j < |a.playlists| && a.playlists[j] == q;
  }

  /**
   * The track list left after removing every occurrence of every id in `gone`;
   * all other tracks stay, as often as they were there and in their order.
   */
  function RemoveAll(s: seq<TrackId>, gone: set<TrackId>): (r: seq<TrackId>)
    ensures forall t :: t in r <==> t in s && t !in gone
    ensures |r| <= |s|
  {
    if s == [] then []
    else
      assert s == [s[0]] + s[1..];
      (if s[0] in gone then [] else [s[0]]) + RemoveAll(s[1..], gone)
  }

  /** Each kept track occurs as often as before; each removed one no longer occurs. */
  lemma {:induction false} RemoveAllCounts(s: seq<TrackId>, gone: set<TrackId>, t: TrackId)
    ensures multiset(RemoveAll(s, gone))[t] == if t in gone then 0 else multiset(s)[t]
  {
    if s != [] {
      assert s == [s[0]] + s[1..];
      RemoveAllCounts(s[1..], gone, t);
    }
  }

  /** Removal works piece by piece, so the kept tracks keep their relative order. */
  lemma {:induction false} RemoveAllConcat(a: seq<TrackId>, b: seq<TrackId>, gone: set<TrackId>)
    ensures RemoveAll(a + b, gone) == RemoveAll(a, gone) + RemoveAll(b, gone)
  {
    if a != [] {
      var head := if a[0] in gone then [] else [a[0]];
      assert (a + b)[0] == a[0] && (a + b)[1..] == a[1..] + b;
      calc {
        RemoveAll(a + b, gone);
        head + RemoveAll(a[1..] + b, gone);
        { RemoveAllConcat(a[1..], b, gone); }
        head + (RemoveAll(a[1..], gone) + RemoveAll(b, gone));
        (head + RemoveAll(a[1..], gone)) + RemoveAll(b, gone);
        RemoveAll(a, gone) + RemoveAll(b, gone);
      }
    } else {
      assert a + b == b;
    }
  }

  /** Removing ids that do not occur changes nothing. */
  lemma {:induction false} RemoveAllAbsent(s: seq<TrackId>, gone: set<TrackId>)
    requires forall t :: t in s ==> t !in gone
    ensures RemoveAll(s, gone) == s
  {
    if s != [] {
      RemoveAllAbsent(s[1..], gone);
    }
  }

  /** A second removal of the same ids is a no-op. */
  lemma RemoveAllIdempotent(s: seq<TrackId>, gone: set<TrackId>)
    ensures RemoveAll(RemoveAll(s, gone), gone) == RemoveAll(s, gone)
  {
    RemoveAllAbsent(RemoveAll(s, gone), gone);
  }

  /**
   * The account as the service holds it. The two mutators are the two calls
   * the script makes: add tracks at the end of a playlist, and remove all
   * occurrences of some tracks from a playlist.
   */
  class Store {
    var playlists: seq<Playlist>
    var tracks: map<PlaylistId, seq<TrackId>>

    function State(): (a: Account)
      reads this
    {
      Account(playlists, tracks)
    }

    ghost predicate Valid()
      reads this
    {
      State().Valid()
    }

    constructor (a: Account)
      requires a.Valid()
      ensures Valid() && State() == a
    {
      playlists := a.playlists;
      tracks := a.tracks;
    }

    /** Appends `ts`, in order, at the end of playlist `id`. */
    method AddTracks(id: PlaylistId, ts: seq<TrackId>)
      requires Valid() && id in tracks
      modifies this
      ensures Valid()
      ensures playlists == old(playlists)
      ensures tracks == old(tracks)[id := old(tracks)[id] + ts]
    {
      tracks := tracks[id := tracks[id] + ts];
    }

    /** Removes every occurrence of every id listed in `ts` from playlist `id`. */
    method RemoveAllOccurrences(id: PlaylistId, ts: seq<TrackId>)
      requires Valid() && id in tracks
      modifies this
      ensures Valid()
      ensures playlists == old(playlists)
      ensures tracks == old(tracks)[id := RemoveAll(old(tracks)[id], set t | t in ts)]
    {
      tracks := tracks[id := RemoveAll(tracks[id], set t | t in ts)];
    }
  }
}

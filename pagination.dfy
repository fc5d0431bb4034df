/**
 * Offset pagination: the service holds a whole list and answers each request
 * with at most `limit` items starting at `offset`, together with the list's
 * total length. The script asks for the first page, and asks again from
 * `offset + limit` as long as the total exceeds `offset + limit`, laying the
 * later pages after the current one.
 */
module Pagination {
  import opened Library

  /** Page size of the playlist listing. */
  const PlaylistPageSize: nat := 50
  /** Page size of a playlist's track listing. */
  const TrackPageSize: nat := 100

  /** One answer of the service: a page of items and the reported total. */
  datatype Response<T> = Response(items: seq<T>, total: nat)

  function Min(a: int, b: int): (m: int)
  {
    if a <= b then a else b
  }

  /** The service's answer to a request for `limit` items of `all` from `offset`. */
  function Serve<T>(all: seq<T>, limit: nat, offset: nat): (r: Response<T>)
    ensures r.total == |all|
    ensures |r.items| == if offset < |all| then Min(limit, |all| - offset) else 0
    ensures forall i :: 0 <= i < |r.items| ==> offset + i < |all| && r.items[i] == all[offset + i]
  {
    Response(all[Min(offset, |all|)..Min(offset + limit, |all|)], |all|)
  }

  /** All items from `offset` on, fetched page by page. */
  function Fetch<T>(all: seq<T>, limit: nat, offset: nat): (r: seq<T>)
    requires limit > 0
    ensures r == all[Min(offset, |all|)..]
    decreases |all| - offset
  {
    var page := Serve(all, limit, offset);
    if page.total > limit + offset then
      assert page.items == all[offset..offset + limit];
      page.items + Fetch(all, limit, offset + limit)
    else
      page.items
  }

  /**
   * The offsets of the requests `Fetch` sends: they start at `offset`, and
   * the last one is the first whose page reaches the total.
   */
  function Requests<T>(all: seq<T>, limit: nat, offset: nat): (r: seq<nat>)
    requires limit > 0
    ensures |r| >= 1 && r[0] == offset
    ensures |all| <= r[|r| - 1] + limit
    decreases |all| - offset
  {
    if |all| > limit + offset then
      [offset] + Requests(all, limit, offset + limit)
    else
      [offset]
  }

  /**
   * Each request after the first is exactly `limit` beyond the one before,
   * and every request but the last leaves items beyond its page.
   */
  lemma {:induction false} RequestsAdvance<T>(all: seq<T>, limit: nat, offset: nat)
    requires limit > 0
    ensures forall k :: 0 <= k < |Requests(all, limit, offset)| - 1 ==>
      Requests(all, limit, offset)[k + 1] == Requests(all, limit, offset)[k] + limit
    ensures forall k :: 0 <= k < |Requests(all, limit, offset)| - 1 ==>
      Requests(all, limit, offset)[k] + limit < |all|
    decreases |all| - offset
  {
    if |all| > limit + offset {
      RequestsAdvance(all, limit, offset + limit);
      var rest := Requests(all, limit, offset + limit);
      assert Requests(all, limit, offset) == [offset] + rest;
    }
  }

  /** The pages the service answers at `offsets`, joined in order. */
  function Pages<T>(all: seq<T>, limit: nat, offsets: seq<nat>): seq<T>
  {
    if offsets == [] then []
    else Serve(all, limit, offsets[0]).items + Pages(all, limit, offsets[1..])
  }

  /** `Fetch` returns exactly the pages at the offsets `Requests` lists, joined in request order. */
  lemma FetchIsPages<T>(all: seq<T>, limit: nat, offset: nat)
    requires limit > 0
    ensures Fetch(all, limit, offset) == Pages(all, limit, Requests(all, limit, offset))
  {
    PagesAreRest(all, limit, offset);
  }

  lemma {:induction false} PagesAreRest<T>(all: seq<T>, limit: nat, offset: nat)
    requires limit > 0
    ensures Pages(all, limit, Requests(all, limit, offset)) == all[Min(offset, |all|)..]
    decreases |all| - offset
  {
    if |all| > limit + offset {
      PagesAreRest(all, limit, offset + limit);
      PagesStep(all, limit, offset);
    } else {
      PagesLast(all, limit, offset);
    }
  }

  lemma PagesStep<T>(all: seq<T>, limit: nat, offset: nat)
    requires limit > 0 && |all| > limit + offset
    requires Pages(all, limit, Requests(all, limit, offset + limit)) == all[offset + limit..]
    ensures Pages(all, limit, Requests(all, limit, offset)) == all[offset..]
  {
    var rest := Requests(all, limit, offset + limit);
    assert ([offset] + rest)[1..] == rest;
    assert all[offset..] == all[offset..offset + limit] + all[offset + limit..];
  }

  lemma PagesLast<T>(all: seq<T>, limit: nat, offset: nat)
    requires limit > 0 && |all| <= limit + offset
    ensures Pages(all, limit, Requests(all, limit, offset)) == all[Min(offset, |all|)..]
  {
    var r := Requests(all, limit, offset);
    assert r == [offset] && r[0] == offset && r[1..] == [];
    assert Pages(all, limit, r) == Serve(all, limit, offset).items + Pages(all, limit, []);
  }

  /** The user's whole playlist listing, as getPlaylists assembles it. */
  function GetPlaylists(all: seq<Playlist>): (r: seq<Playlist>)
    ensures r == all
    ensures |r| == Serve(all, PlaylistPageSize, 0).total
  {
    Fetch(all, PlaylistPageSize, 0)
  }

  /** A playlist's whole track list, as getTrackIds assembles it. */
  function GetTrackIds(all: seq<TrackId>): (r: seq<TrackId>)
    ensures r == all
    ensures |r| == Serve(all, TrackPageSize, 0).total
  {
    Fetch(all, TrackPageSize, 0)
  }
}

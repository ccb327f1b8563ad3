/** The SQLite tables of `bot/database.py` (and the copy of the cache
    functions in `superbot.py`): `cache(query, response, created_at)` and
    `user_sites(user_id, site_url)`, held as row sequences in insertion
    order, with the wall clock replaced by an integer clock in minutes. */
module Database {
  import opened Wrappers

  datatype CacheRow = CacheRow(query: string, response: string, createdAt: int)

  datatype SiteRow = SiteRow(userId: int, siteUrl: string)

  /** The default `ttl_minutes` of `load_cache`. */
  const DefaultTtl: int := 60

  /** The sites a user starts with, in insertion order. */
  const DefaultSites: seq<string> := [
    "https://realpython.com/search/?q=",
    "https://medium.com/search?q=",
    "https://stackoverflow.com/search?q="
  ]

  // ---------------------------------------------------------------------
  // The cache table

  /** The row `ORDER BY created_at DESC LIMIT 1` picks for `query`: the
      latest `created_at`; among equal timestamps the later insert. */
  function Newest(rows: seq<CacheRow>, query: string): (r: Option<nat>)
    ensures r.None? <==> forall i :: 0 <= i < |rows| ==> rows[i].query != query
    ensures r.Some? ==> r.value < |rows| && rows[r.value].query == query
    ensures r.Some? ==> forall i :: 0 <= i < |rows| && rows[i].query == query
                          ==> rows[i].createdAt <= rows[r.value].createdAt
  {
    if rows == [] then None
    else
      var last := |rows| - 1;
      var r := Newest(rows[..last], query);
      if rows[last].query != query then r
      else if r.Some? && rows[r.value].createdAt > rows[last].createdAt then r
      else Some(last)
  }

  /** `load_cache(query, ttl)` at time `now`: the newest row's response
      when it is younger than `ttl` minutes (strictly), otherwise `None`.
      An answer exists exactly when some row for the query is fresh, and it
      is the response of a newest row. */
  function Lookup(rows: seq<CacheRow>, query: string, now: int, ttl: int): (r: Option<string>)
    ensures r.Some? <==> exists i :: 0 <= i < |rows| && rows[i].query == query && now - rows[i].createdAt < ttl
    ensures r.Some? ==> exists i :: 0 <= i < |rows| && rows[i].query == query && rows[i].response == r.value
                          && (forall j :: 0 <= j < |rows| && rows[j].query == query ==> rows[j].createdAt <= rows[i].createdAt)
  {
    match Newest(rows, query)
    case None => None
    case Some(i) => if now - rows[i].createdAt < ttl then Some(rows[i].response) else None
  }

  // ---------------------------------------------------------------------
  // The user_sites table

  /** `SELECT site_url FROM user_sites WHERE user_id = ?`, in insertion order. */
  function SitesOf(rows: seq<SiteRow>, user: int): (urls: seq<string>)
    ensures |urls| <= |rows|
    ensures forall k :: 0 <= k < |urls| ==> SiteRow(user, urls[k]) in rows
    ensures forall i :: 0 <= i < |rows| && rows[i].userId == user ==> rows[i].siteUrl in urls
  {
    if rows == [] then []
    else
      var init := SitesOf(rows[..|rows| - 1], user);
      var last := rows[|rows| - 1];
      assert forall i :: 0 <= i < |rows| - 1 ==> rows[i] == rows[..|rows| - 1][i];
      if last.userId == user then init + [last.siteUrl] else init
  }

  /** The rows `executemany` inserts for the defaults. */
  function DefaultRows(user: int): (rows: seq<SiteRow>)
    ensures |rows| == |DefaultSites|
    ensures forall i :: 0 <= i < |rows| ==> rows[i] == SiteRow(user, DefaultSites[i])
  {
    seq(|DefaultSites|, i requires 0 <= i < |DefaultSites| => SiteRow(user, DefaultSites[i]))
  }

  /** `DELETE ... WHERE user_id = ? AND site_url = ?`. */
  function DeleteSite(rows: seq<SiteRow>, user: int, url: string): (r: seq<SiteRow>)
    ensures |r| <= |rows|
    ensures forall i :: 0 <= i < |r| ==> r[i] != SiteRow(user, url) && r[i] in rows
  {
    if rows == [] then []
    else
      var init := DeleteSite(rows[..|rows| - 1], user, url);
      var last := rows[|rows| - 1];
      if last == SiteRow(user, url) then init else init + [last]
  }

  /** `DELETE ... WHERE user_id = ?`. */
  function DeleteUser(rows: seq<SiteRow>, user: int): (r: seq<SiteRow>)
    ensures |r| <= |rows|
    ensures forall i :: 0 <= i < |r| ==> r[i].userId != user && r[i] in rows
  {
    if rows == [] then []
    else
      var init := DeleteUser(rows[..|rows| - 1], user);
      var last := rows[|rows| - 1];
      if last.userId == user then init else init + [last]
  }

  /** `url` with every occurrence taken out. */
  function Without(urls: seq<string>, url: string): (r: seq<string>)
    ensures url !in r
  {
    if urls == [] then []
    else
      var init := Without(urls[..|urls| - 1], url);
      if urls[|urls| - 1] == url then init else init + [urls[|urls| - 1]]
  }

  class Db {
    /** Minutes since an arbitrary origin; only moves forward. */
    var clock: int
    var cache: seq<CacheRow>
    var sites: seq<SiteRow>

    /** Every cached row was written no later than now. */
    ghost predicate Valid()
      reads this
    {
      forall i :: 0 <= i < |cache| ==> cache[i].createdAt <= clock
    }

    /** `init_db` on a fresh file. */
    constructor ()
      ensures clock == 0 && cache == [] && sites == []
      ensures Valid()
    {
      clock := 0;
      cache := [];
      sites := [];
    }

    /** Time passing between two calls. */
    method Tick(minutes: nat)
      requires Valid()
      modifies this`clock
      ensures clock == old(clock) + minutes
      ensures Valid()
    {
      clock := clock + minutes;
    }

    /** `save_cache`: appends one row stamped now; nothing is updated or
        deleted, and the new row is what the next lookup of `query` sees. */
    method SaveCache(query: string, response: string)
      requires Valid()
      modifies this`cache
      ensures cache == old(cache) + [CacheRow(query, response, clock)]
      ensures Valid()
      ensures forall ttl :: 0 < ttl ==> Lookup(cache, query, clock, ttl) == Some(response)
    {
      cache := cache + [CacheRow(query, response, clock)];
      forall ttl | 0 < ttl
        ensures Lookup(cache, query, clock, ttl) == Some(response)
      {
        LookupAfterSave(old(cache), query, response, clock, ttl);
      }
    }

    /** `load_cache`: reads only. */
    method LoadCache(query: string, ttl: int) returns (r: Option<string>)
      ensures r == Lookup(cache, query, clock, ttl)
    {
      r := Lookup(cache, query, clock, ttl);
    }

    /** `get_user_sites`: a user without rows gets the defaults, which are
        inserted on the way. */
    method GetUserSites(user: int) returns (urls: seq<string>)
      requires Valid()
      modifies this`sites
      ensures Valid()
      ensures old(SitesOf(sites, user)) != [] ==> urls == old(SitesOf(sites, user)) && sites == old(sites)
      ensures old(SitesOf(sites, user)) == [] ==> urls == DefaultSites && sites == old(sites) + DefaultRows(user)
      ensures SitesOf(sites, user) == urls
    {
      urls := SitesOf(sites, user);
      if urls == [] {
        SitesOfDefaults(sites, user);
        sites := sites + DefaultRows(user);
        urls := DefaultSites;
      }
    }

    /** `add_user_site`: no uniqueness check. */
    method AddUserSite(user: int, url: string)
      requires Valid()
      modifies this`sites
      ensures Valid()
      ensures sites == old(sites) + [SiteRow(user, url)]
    {
      sites := sites + [SiteRow(user, url)];
    }

    /** `remove_user_site`: deletes every matching row. */
    method RemoveUserSite(user: int, url: string)
      requires Valid()
      modifies this`sites
      ensures Valid()
      ensures sites == DeleteSite(old(sites), user, url)
    {
      sites := DeleteSite(sites, user, url);
    }

    /** `reset_user_sites`: the user's rows are replaced by the defaults. */
    method ResetUserSites(user: int)
      requires Valid()
      modifies this`sites
      ensures Valid()
      ensures sites == DeleteUser(old(sites), user) + DefaultRows(user)
    {
      sites := DeleteUser(sites, user) + DefaultRows(user);
    }
  }

  // ---------------------------------------------------------------------
  // Properties of the cache

  /** A row saved now is the newest for its query, so a lookup with any
      positive TTL returns it. */
  lemma LookupAfterSave(rows: seq<CacheRow>, query: string, response: string, now: int, ttl: int)
    requires forall i :: 0 <= i < |rows| ==> rows[i].createdAt <= now
    requires 0 < ttl
    ensures Lookup(rows + [CacheRow(query, response, now)], query, now, ttl) == Some(response)
  {
    assert (rows + [CacheRow(query, response, now)])[..|rows|] == rows;
  }

  /** Saving under one query leaves every other query's lookup unchanged. */
  lemma SaveOtherQuery(rows: seq<CacheRow>, row: CacheRow, query: string, now: int, ttl: int)
    requires row.query != query
    ensures Lookup(rows + [row], query, now, ttl) == Lookup(rows, query, now, ttl)
  {
    assert (rows + [row])[..|rows|] == rows;
  }

  /** Two saves at the same time: the later one wins. */
  lemma LatestSaveWins(rows: seq<CacheRow>, query: string, first: string, second: string, now: int, ttl: int)
    requires forall i :: 0 <= i < |rows| ==> rows[i].createdAt <= now
    requires 0 < ttl
    ensures Lookup(rows + [CacheRow(query, first, now)] + [CacheRow(query, second, now)], query, now, ttl) == Some(second)
  {
    var once := rows + [CacheRow(query, first, now)];
    assert (once + [CacheRow(query, second, now)])[..|once|] == once;
  }

  /** A newest row older than the TTL hides every older row: the lookup
      fails even when stale rows remain in the table. */
  lemma LookupExpired(rows: seq<CacheRow>, query: string, now: int, ttl: int)
    requires forall i :: 0 <= i < |rows| && rows[i].query == query ==> now - rows[i].createdAt >= ttl
    ensures Lookup(rows, query, now, ttl) == None
  {
  }

  // ---------------------------------------------------------------------
  // Properties of the user_sites table

  lemma {:induction false} SitesOfConcat(rows: seq<SiteRow>, more: seq<SiteRow>, user: int)
    ensures SitesOf(rows + more, user) == SitesOf(rows, user) + SitesOf(more, user)
    decreases |more|
  {
    if more == [] {
      assert rows + more == rows;
    } else {
      var init := more[..|more| - 1];
      assert (rows + more)[..|rows + more| - 1] == rows + init;
      SitesOfConcat(rows, init, user);
    }
  }

  /** The default rows give the user exactly the default list, and no other
      user anything. */
  lemma SitesOfDefaults(rows: seq<SiteRow>, user: int)
    ensures SitesOf(rows + DefaultRows(user), user) == SitesOf(rows, user) + DefaultSites
    ensures forall other :: other != user ==> SitesOf(rows + DefaultRows(user), other) == SitesOf(rows, other)
  {
    var d := DefaultRows(user);
    SitesOfOneUser(d, user, user);
    assert SitesOf(d, user) == DefaultSites;
    SitesOfConcat(rows, d, user);
    forall other | other != user
      ensures SitesOf(rows + d, other) == SitesOf(rows, other)
    {
      SitesOfConcat(rows, d, other);
      SitesOfOneUser(d, user, other);
    }
  }

  /** Rows that all belong to one owner list exactly their URLs for that
      owner and nothing for anyone else. */
  lemma {:induction false} SitesOfOneUser(rows: seq<SiteRow>, owner: int, user: int)
    requires forall i :: 0 <= i < |rows| ==> rows[i].userId == owner
    ensures SitesOf(rows, user)
            == if owner == user then seq(|rows|, i requires 0 <= i < |rows| => rows[i].siteUrl) else []
  {
    if rows != [] {
      var init := rows[..|rows| - 1];
      SitesOfOneUser(init, owner, user);
      if owner == user {
        assert seq(|rows|, i requires 0 <= i < |rows| => rows[i].siteUrl)
            == seq(|init|, i requires 0 <= i < |init| => init[i].siteUrl) + [rows[|rows| - 1].siteUrl];
      }
    }
  }

  /** `get_user_sites` twice in a row: the second call sees what the first
      returned and changes nothing. */
  lemma GetUserSitesSettles(rows: seq<SiteRow>, user: int)
    ensures var rows' := if SitesOf(rows, user) == [] then rows + DefaultRows(user) else rows;
            SitesOf(rows', user) != []
            && SitesOf(rows', user) == (if SitesOf(rows, user) == [] then DefaultSites else SitesOf(rows, user))
  {
    SitesOfDefaults(rows, user);
  }

  /** Adding appends to the user's list even when the URL is already there,
      and leaves other users alone. */
  lemma AddKeepsDuplicates(rows: seq<SiteRow>, user: int, url: string)
    ensures SitesOf(rows + [SiteRow(user, url)], user) == SitesOf(rows, user) + [url]
    ensures multiset(SitesOf(rows + [SiteRow(user, url)], user))[url] == multiset(SitesOf(rows, user))[url] + 1
    ensures forall other :: other != user ==> SitesOf(rows + [SiteRow(user, url)], other) == SitesOf(rows, other)
  {
    assert (rows + [SiteRow(user, url)])[..|rows|] == rows;
  }

  /** Removing takes every copy of the URL out of the user's list, keeps the
      user's other sites in order, and leaves other users alone. */
  lemma {:induction false} RemoveDeletesAll(rows: seq<SiteRow>, user: int, url: string)
    ensures SitesOf(DeleteSite(rows, user, url), user) == Without(SitesOf(rows, user), url)
    ensures forall other :: other != user ==> SitesOf(DeleteSite(rows, user, url), other) == SitesOf(rows, other)
  {
    if rows != [] {
      var init := rows[..|rows| - 1];
      var last := rows[|rows| - 1];
      RemoveDeletesAll(init, user, url);
      var kept := DeleteSite(init, user, url);
      if last != SiteRow(user, url) {
        assert (kept + [last])[..|kept|] == kept;
      }
      if last.userId == user {
        assert SitesOf(rows, user) == SitesOf(init, user) + [last.siteUrl];
        assert (SitesOf(init, user) + [last.siteUrl])[..|SitesOf(init, user)|] == SitesOf(init, user);
      }
    }
  }

  /** After a reset the user has exactly the defaults, in order; other
      users keep their lists. */
  lemma {:induction false} ResetGivesDefaults(rows: seq<SiteRow>, user: int)
    ensures SitesOf(DeleteUser(rows, user) + DefaultRows(user), user) == DefaultSites
    ensures forall other :: other != user ==> SitesOf(DeleteUser(rows, user) + DefaultRows(user), other) == SitesOf(rows, other)
  {
    DeleteUserFrame(rows, user);
    SitesOfDefaults(DeleteUser(rows, user), user);
  }

  lemma {:induction false} DeleteUserFrame(rows: seq<SiteRow>, user: int)
    ensures SitesOf(DeleteUser(rows, user), user) == []
    ensures forall other :: other != user ==> SitesOf(DeleteUser(rows, user), other) == SitesOf(rows, other)
  {
    if rows != [] {
      var init := rows[..|rows| - 1];
      var last := rows[|rows| - 1];
      DeleteUserFrame(init, user);
      var kept := DeleteUser(init, user);
      if last.userId != user {
        assert (kept + [last])[..|kept|] == kept;
      }
    }
  }
}

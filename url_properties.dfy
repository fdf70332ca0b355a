/**
 * Properties of the redirect and analytics service: what a redirect returns
 * and records for an active, a banned and a missing Url, and what a status
 * lookup reports.
 */
module UrlProperties {
  import opened Wrappers
  import opened Table
  import opened Base
  import opened Url
  import BaseProperties

  /** The number of Clicks stored for a Url. */
  function ClickCount(clicks: seq<Row>, urlId: Id): (n: nat)
  {
    |MatchingRows(clicks, ClicksOf(urlId))|
  }

  /** Whatever the inputs, a redirect that succeeds returns the stored address of
    * an active Url with that identifier, unchanged, and records at most that one Click. */
  lemma RedirectReturnsStoredAddress(urls: seq<Row>, cs: Schema, clicks: seq<Row>, client: string, urlId: Id, clickId: Id)
    ensures var r := RedirectStep(urls, cs, clicks, client, urlId, clickId);
            r.result.Ok? ==>
              && Lookup(urls, urlId).Some?
              && Truthy(Field(Lookup(urls, urlId).value, IS_ACTIVE))
              && r.result.value == Field(Lookup(urls, urlId).value, FULL_URL)
              && (r.clicks == clicks || r.clicks == clicks + [Inserted(cs, clickId, ClickData(urlId, client))])
  {
  }

  /** For an active Url whose new Click fits the Click table, the redirect returns
    * the stored address and records exactly one Click, for that Url and client. */
  lemma RedirectToActiveUrl(urls: seq<Row>, cs: Schema, clicks: seq<Row>, client: string, urlId: Id, clickId: Id, url: Row)
    requires Lookup(urls, urlId) == Some(url)
    requires Truthy(Field(url, IS_ACTIVE))
    requires URL_ID in cs.columns && CLIENT in cs.columns
    requires forall x :: x in clicks ==> !Clashes(cs.unique, Inserted(cs, clickId, ClickData(urlId, client)), x)
    ensures var r := RedirectStep(urls, cs, clicks, client, urlId, clickId);
            && r.result == Ok(Field(url, FULL_URL))
            && r.clicks == clicks + [Inserted(cs, clickId, ClickData(urlId, client))]
            && r.clicks[|clicks|].id == clickId
            && Field(r.clicks[|clicks|], URL_ID) == Int(urlId)
            && Field(r.clicks[|clicks|], CLIENT) == Text(client)
            && ClickCount(r.clicks, urlId) == ClickCount(clicks, urlId) + 1
  {
    var click := Inserted(cs, clickId, ClickData(urlId, client));
    BaseProperties.MatchingRowsAppend(clicks, click, ClicksOf(urlId));
    ClicksOfMatches(click, urlId);
  }

  /** A banned Url is refused and no Click is recorded. */
  lemma RedirectToBannedUrl(urls: seq<Row>, cs: Schema, clicks: seq<Row>, client: string, urlId: Id, clickId: Id, url: Row)
    requires Lookup(urls, urlId) == Some(url)
    requires !Truthy(Field(url, IS_ACTIVE))
    ensures RedirectStep(urls, cs, clicks, client, urlId, clickId) == Redirect(Err(UrlIsBanned), clicks)
  {
  }

  /** A Url identifier no row has fails before any Click is written. */
  lemma RedirectToMissingUrl(urls: seq<Row>, cs: Schema, clicks: seq<Row>, client: string, urlId: Id, clickId: Id)
    requires Lookup(urls, urlId).None?
    ensures RedirectStep(urls, cs, clicks, client, urlId, clickId) == Redirect(Err(NotFound), clicks)
  {
  }

  /** A Click that would violate a uniqueness constraint is not recorded, yet the
    * redirect still succeeds: `create` answers the integrity error with `None`. */
  lemma RedirectWithClashingClick(urls: seq<Row>, cs: Schema, clicks: seq<Row>, client: string, urlId: Id, clickId: Id, url: Row)
    requires Lookup(urls, urlId) == Some(url)
    requires Truthy(Field(url, IS_ACTIVE))
    requires URL_ID in cs.columns && CLIENT in cs.columns
    requires Lookup(clicks, clickId).Some?
    ensures RedirectStep(urls, cs, clicks, client, urlId, clickId) == Redirect(Ok(Field(url, FULL_URL)), clicks)
  {
  }

  /** In count mode the status reports min(number of Clicks of the Url, 100). */
  lemma StatusCountIsCapped(urls: seq<Row>, cs: Schema, clicks: seq<Row>, urlId: Id,
                            offset: nat, limit: nat, options: Options, url: Row)
    requires NoneNamed(options, STATUS_PARAMETERS)
    requires Lookup(urls, urlId) == Some(url)
    requires URL_ID in cs.columns
    ensures StatusOf(urls, cs, clicks, urlId, false, offset, limit, options)
            == Ok(Status(url, Count(Min(ClickCount(clicks, urlId), DEFAULT_LIMIT))))
  {
  }

  /** In count mode the caller's options, offset and limit change nothing. */
  lemma StatusCountIgnoresOptions(urls: seq<Row>, cs: Schema, clicks: seq<Row>, urlId: Id,
                                  offset: nat, limit: nat, options: Options,
                                  offset': nat, limit': nat, options': Options)
    requires NoneNamed(options, STATUS_PARAMETERS) && NoneNamed(options', STATUS_PARAMETERS)
    ensures StatusOf(urls, cs, clicks, urlId, false, offset, limit, options)
            == StatusOf(urls, cs, clicks, urlId, false, offset', limit', options')
  {
  }

  /** With full info, every Click row returned belongs to the Url, satisfies the
    * caller's equalities and is stored; at most `limit` are returned. */
  lemma StatusFullInfoRows(urls: seq<Row>, cs: Schema, clicks: seq<Row>, urlId: Id,
                           offset: nat, limit: nat, options: Options)
    requires NoneNamed(options, STATUS_PARAMETERS)
    requires StatusOf(urls, cs, clicks, urlId, true, offset, limit, options).Ok?
    ensures var found := StatusOf(urls, cs, clicks, urlId, true, offset, limit, options).value.clicks.rows;
            && |found| <= limit
            && forall x :: x in found ==> x in clicks && Field(x, URL_ID) == Int(urlId) && Matches(x, options)
  {
  }

  /** With full info and every option naming a Click attribute, the status lists
    * the Clicks of the Url that satisfy the caller's equalities, in table order,
    * from the `offset`-th on and at most `limit` of them; unpaged, it lists every
    * such Click and nothing else. */
  lemma StatusFullInfoComplete(urls: seq<Row>, cs: Schema, clicks: seq<Row>, urlId: Id,
                               offset: nat, limit: nat, options: Options, url: Row, x: Row)
    requires NoneNamed(options, STATUS_PARAMETERS)
    requires Lookup(urls, urlId) == Some(url)
    requires URL_ID in cs.columns
    requires forall j :: 0 <= j < |options| ==> options[j].0 in Attributes(cs)
    ensures var r := StatusOf(urls, cs, clicks, urlId, true, offset, limit, options);
            var m := MatchingRows(clicks, ClicksOf(urlId) + options);
            && r.Ok? && r.value.url == url && r.value.clicks.Rows?
            && |r.value.clicks.rows| == Min(limit, |m| - Min(offset, |m|))
            && (forall k :: 0 <= k < |r.value.clicks.rows| ==> r.value.clicks.rows[k] == m[offset + k])
            && (x in m <==> x in clicks && Field(x, URL_ID) == Int(urlId) && Matches(x, options))
            && (offset == 0 && limit >= |clicks| ==>
                  (x in r.value.clicks.rows <==> x in clicks && Field(x, URL_ID) == Int(urlId) && Matches(x, options)))
  {
  }

  /** When every stored Click belongs to the Url and there are at most 100 of
    * them, the count is their number and the full status lists all of them. */
  lemma StatusOfOwnClicks(urls: seq<Row>, cs: Schema, clicks: seq<Row>, urlId: Id, url: Row)
    requires Lookup(urls, urlId) == Some(url)
    requires URL_ID in cs.columns
    requires |clicks| <= DEFAULT_LIMIT
    requires forall x :: x in clicks ==> Field(x, URL_ID) == Int(urlId)
    ensures StatusOf(urls, cs, clicks, urlId, false, 0, DEFAULT_LIMIT, []) == Ok(Status(url, Count(|clicks|)))
    ensures StatusOf(urls, cs, clicks, urlId, true, 0, DEFAULT_LIMIT, []) == Ok(Status(url, Rows(clicks)))
  {
    forall x | x in clicks ensures Matches(x, ClicksOf(urlId)) {
      ClicksOfMatches(x, urlId);
    }
    BaseProperties.MatchingRowsAll(clicks, ClicksOf(urlId));
    assert ClicksOf(urlId) + [] == ClicksOf(urlId);
    assert Window(clicks, 0, DEFAULT_LIMIT) == clicks;
  }

  /** Three redirects to an active Url, starting from an empty Click table without
    * unique columns, record three Clicks of that Url: the status then counts
    * three and the full status lists them. */
  lemma ThreeRedirects(urls: seq<Row>, cs: Schema, urlId: Id, url: Row, client: string, c1: Id, c2: Id, c3: Id)
    requires Lookup(urls, urlId) == Some(url)
    requires Truthy(Field(url, IS_ACTIVE))
    requires URL_ID in cs.columns && CLIENT in cs.columns && cs.unique == {}
    requires c1 != c2 && c2 != c3 && c1 != c3
    ensures var r1 := RedirectStep(urls, cs, [], client, urlId, c1);
            var r2 := RedirectStep(urls, cs, r1.clicks, client, urlId, c2);
            var r3 := RedirectStep(urls, cs, r2.clicks, client, urlId, c3);
            && r1.result == r2.result == r3.result == Ok(Field(url, FULL_URL))
            && |r3.clicks| == 3
            && StatusOf(urls, cs, r3.clicks, urlId, false, 0, DEFAULT_LIMIT, []) == Ok(Status(url, Count(3)))
            && StatusOf(urls, cs, r3.clicks, urlId, true, 0, DEFAULT_LIMIT, []) == Ok(Status(url, Rows(r3.clicks)))
  {
    var row1 := Inserted(cs, c1, ClickData(urlId, client));
    var row2 := Inserted(cs, c2, ClickData(urlId, client));
    var row3 := Inserted(cs, c3, ClickData(urlId, client));
    RedirectToActiveUrl(urls, cs, [], client, urlId, c1, url);
    assert [] + [row1] == [row1];
    RedirectToActiveUrl(urls, cs, [row1], client, urlId, c2, url);
    assert [row1] + [row2] == [row1, row2];
    RedirectToActiveUrl(urls, cs, [row1, row2], client, urlId, c3, url);
    assert [row1, row2] + [row3] == [row1, row2, row3];
    StatusOfOwnClicks(urls, cs, [row1, row2, row3], urlId, url);
  }
}

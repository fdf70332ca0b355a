/**
 * The redirect and analytics service of src/services/url.py: a repository
 * bound to the Url entity, composed with a second repository over the Click
 * entity. Resolving a redirect reads the Url, refuses a banned one and
 * records one Click; the status lookup reads the Url and its Clicks.
 */
module Url {
  import opened Wrappers
  import opened Table
  import opened Base

  /** Attributes of a Url. */
  const FULL_URL: Name := "full_url"
  const IS_ACTIVE: Name := "is_active"
  /** Attributes of a Click. */
  const URL_ID: Name := "url_id"
  const CLIENT: Name := "client"

  /** The named parameters `get_status` binds itself, together with the
    * pagination parameters `filter` binds: its `**options` never holds them. */
  const STATUS_PARAMETERS: set<Name> := {"self", "session", URL_ID, "full_info"} + FILTER_PARAMETERS

  /** How a service call fails. */
  datatype Failure =
    /** A Click repository call raised; passed on unchanged. */
    | Repository(error: Error)
    /** No Url has the identifier (`get` gave `None`, whose attributes cannot be read). */
    | NotFound
    /** The Url exists but is not active. */
    | UrlIsBanned

  /** The `clicks` entry of a status: the Click rows, or only how many were read. */
  datatype Clicks = Rows(rows: seq<Row>) | Count(n: nat)

  /** `dict(url=url, clicks=clicks)`. */
  datatype Status = Status(url: Row, clicks: Clicks)

  /** What a redirect returns together with the Click table it leaves behind. */
  datatype Redirect = Redirect(result: Result<Value, Failure>, clicks: seq<Row>)

  /** Python truthiness of a stored value, as `not url.is_active` reads it. */
  predicate Truthy(v: Value)
  {
    match v
    case Null => false
    case Bool(b) => b
    case Int(i) => i != 0
    case Text(s) => s != ""
  }

  /** `UrlClickCreate(url_id=url_id, client=client)`. */
  function ClickData(urlId: Id, client: string): (data: map<Name, Value>)
    ensures data.Keys == {URL_ID, CLIENT}
  {
    map[URL_ID := Int(urlId), CLIENT := Text(client)]
  }

  /** The keyword `url_id=url_id` that selects the Clicks of one Url. */
  function ClicksOf(urlId: Id): (o: Options)
  {
    [(URL_ID, Int(urlId))]
  }

  /** A row matches `url_id=url_id` exactly when it is a Click of that Url. */
  lemma ClicksOfMatches(x: Row, urlId: Id)
    ensures Matches(x, ClicksOf(urlId)) <==> Field(x, URL_ID) == Int(urlId)
  {
    assert ClicksOf(urlId)[0] == (URL_ID, Int(urlId));
  }

  /** `get_redirect_url(client, url_id)` against the Url table `urls` and the
    * Click table `clicks` (of schema `cs`); `clickId` is the identifier the
    * new Click receives. */
  function RedirectStep(urls: seq<Row>, cs: Schema, clicks: seq<Row>, client: string, urlId: Id, clickId: Id): (r: Redirect)
    ensures r.result.Err? ==> r.clicks == clicks
    ensures r.clicks == clicks || r.clicks == clicks + [Inserted(cs, clickId, ClickData(urlId, client))]
  {
    match Lookup(urls, urlId)
    case None => Redirect(Err(NotFound), clicks)
    case Some(url) =>
      if !Truthy(Field(url, IS_ACTIVE)) then Redirect(Err(UrlIsBanned), clicks)
      else
        var created := CreateStep(cs, clicks, clickId, ClickData(url.id, client));
        if created.result.Err? && created.result.error.UnconsumedColumns? then
          Redirect(Err(Repository(created.result.error)), created.rows)
        else
          // an integrity error inside `create` is answered with `None`, which is ignored here
          Redirect(Ok(Field(url, FULL_URL)), created.rows)
  }

  /** The keywords of the full-info `filter` call keep clear of its own parameters. */
  lemma ClicksOfNoneNamed(urlId: Id, options: Options)
    requires NoneNamed(options, STATUS_PARAMETERS)
    ensures NoneNamed(ClicksOf(urlId) + options, FILTER_PARAMETERS)
  {
  }

  /** `get_status(url_id, full_info, **options)`; `offset` and `limit` are the
    * pagination keywords among the options, which `filter` binds to its own
    * parameters (0 and 100, `filter`'s defaults, when the caller passes none). */
  function StatusOf(urls: seq<Row>, cs: Schema, clicks: seq<Row>, urlId: Id, fullInfo: bool,
                    offset: nat, limit: nat, options: Options): (r: Result<Status, Failure>)
    requires NoneNamed(options, STATUS_PARAMETERS)
    ensures r.Ok? ==> Lookup(urls, urlId) == Some(r.value.url)
    ensures r.Ok? ==> (r.value.clicks.Rows? <==> fullInfo)
    ensures Lookup(urls, urlId).None? ==> r == Err(NotFound)
  {
    match Lookup(urls, urlId)
    case None => Err(NotFound)
    case Some(url) =>
      if fullInfo then
        ClicksOfNoneNamed(url.id, options);
        match FilterRows(cs, clicks, offset, limit, ClicksOf(url.id) + options)
        case Err(e) => Err(Repository(e))
        case Ok(found) => Ok(Status(url, Rows(found)))
      else match FilterRows(cs, clicks, DEFAULT_OFFSET, DEFAULT_LIMIT, ClicksOf(url.id))
        case Err(e) => Err(Repository(e))
        case Ok(found) => Ok(Status(url, Count(|found|)))
  }

  /** `UrlRepository`: the repository bound to the Url entity, with the Click repository beside it. */
  class UrlRepository {
    /** The Url table this repository is bound to (what `super()` reaches). */
    const urls: Repository
    /** The Click repository (`UrlClick`). */
    const clicks: Repository

    ghost predicate Valid()
      reads this, urls, clicks
    {
      urls != clicks && urls.Valid() && clicks.Valid()
    }

    constructor (urls: Repository, clicks: Repository)
      requires urls != clicks && urls.Valid() && clicks.Valid()
      ensures Valid() && this.urls == urls && this.clicks == clicks
    {
      this.urls := urls;
      this.clicks := clicks;
    }

    /** `get_redirect_url`: read the Url, refuse it when banned, record one Click, return its address. */
    method GetRedirectUrl(client: string, urlId: Id, clickId: Id) returns (r: Result<Value, Failure>)
      requires Valid()
      modifies clicks
      ensures Valid()
      ensures urls.rows == old(urls.rows)
      ensures Redirect(r, clicks.rows) == RedirectStep(urls.rows, clicks.schema, old(clicks.rows), client, urlId, clickId)
    {
      var url := urls.Get(urlId);
      if url.None? {
        return Err(NotFound);
      }
      if !Truthy(Field(url.value, IS_ACTIVE)) {
        return Err(UrlIsBanned);
      }
      var created := clicks.Create(clickId, ClickData(url.value.id, client));
      if created.Err? && created.error.UnconsumedColumns? {
        return Err(Repository(created.error));
      }
      r := Ok(Field(url.value, FULL_URL));
    }

    /** `get_status`: the Url with its Click rows (`full_info`) or with their number. */
    method GetStatus(urlId: Id, fullInfo: bool, offset: nat, limit: nat, options: Options) returns (r: Result<Status, Failure>)
      requires NoneNamed(options, STATUS_PARAMETERS)
      ensures r == StatusOf(urls.rows, clicks.schema, clicks.rows, urlId, fullInfo, offset, limit, options)
    {
      var url := urls.Get(urlId);
      if url.None? {
        return Err(NotFound);
      }
      var found;
      if fullInfo {
        ClicksOfNoneNamed(url.value.id, options);
        found := clicks.Filter(offset, limit, ClicksOf(url.value.id) + options);
      } else {
        found := clicks.Filter(DEFAULT_OFFSET, DEFAULT_LIMIT, ClicksOf(url.value.id));
      }
      if found.Err? {
        return Err(Repository(found.error));
      }
      r := Ok(Status(url.value, if fullInfo then Rows(found.value) else Count(|found.value|)));
    }
  }
}

/** The client's API configuration (src/config/api.ts): the backend's base URL, the endpoint
    paths, and `buildApiUrl`, which joins them. */
module ApiConfig {
  import opened Options

  const BaseUrl: string := "http://46.244.96.25:8086/api"

  /** The keys of `API_CONFIG.ENDPOINTS`. */
  datatype Endpoint = UploadVideo | GetUserVideos | GetVideo | DeleteVideo | IncrementViews | AuthLogin

  function EndpointPath(e: Endpoint): string
  {
    match e
    case UploadVideo => "/videos/upload"
    case GetUserVideos => "/videos/user"
    case GetVideo => "/videos"
    case DeleteVideo => "/videos"
    case IncrementViews => "/videos/views"
    case AuthLogin => "/auth/login"
  }

  /** `params` is `None` when the argument is absent; an empty string is falsy as well. */
  function BuildApiUrl(endpoint: string, params: Option<string>): (url: string)
    ensures |BaseUrl| + |endpoint| <= |url|
    ensures url[..|BaseUrl|] == BaseUrl
    ensures url[|BaseUrl|..|BaseUrl| + |endpoint|] == endpoint
    ensures params.None? || params == Some("") ==> |url| == |BaseUrl| + |endpoint|
    ensures params.Some? && params.value != "" ==>
      url[|BaseUrl| + |endpoint|..] == "/" + params.value
  {
    var base := BaseUrl + endpoint;
    assert base[..|BaseUrl|] == BaseUrl;
    if params.Some? && params.value != "" then
      var url := base + "/" + params.value;
      assert url[..|base|] == base;
      url
    else base
  }

  /** Every endpoint path starts with '/', and the base URL does not end with one, so base and
      path are joined by exactly one separator. */
  lemma OneSeparator(e: Endpoint, params: Option<string>)
    ensures BaseUrl[|BaseUrl| - 1] != '/'
    ensures var url := BuildApiUrl(EndpointPath(e), params);
      url[|BaseUrl|] == '/' && url[|BaseUrl| - 1] != '/'
  {
    var url := BuildApiUrl(EndpointPath(e), params);
    assert url[|BaseUrl|] == url[|BaseUrl|..|BaseUrl| + |EndpointPath(e)|][0];
    assert url[|BaseUrl| - 1] == url[..|BaseUrl|][|BaseUrl| - 1];
  }

  /** Reading a URL built without parameters back: strip the base and compare with each endpoint. */
  function EndpointOf(url: string): Option<string>
  {
    if |BaseUrl| <= |url| && url[..|BaseUrl|] == BaseUrl then Some(url[|BaseUrl|..]) else None
  }

  lemma {:induction false} BuildApiUrlRoundTrip(endpoint: string, params: Option<string>)
    requires params.None? || params == Some("")
    ensures EndpointOf(BuildApiUrl(endpoint, params)) == Some(endpoint)
  {
    var url := BuildApiUrl(endpoint, params);
    assert url[|BaseUrl|..] == url[|BaseUrl|..|BaseUrl| + |endpoint|];
  }
}

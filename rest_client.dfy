/**
 * `SimpleRestClient`: the superclass of every generated client. It keeps the
 * base URL and the service path of the interface, and seeds each call with a
 * new builder whose verb is set and whose first path segment is the service
 * path.
 */
module RestClient {
  import opened Wrappers
  import opened JavaValues
  import opened RequestBuilder

  class SimpleRestClient {
    const baseUrl: string
    /** The interface's `@Path` value; `None` stands for a null reference. */
    const servicePath: Option<string>

    /** `new SimpleRestClient(baseUrl, servicePath)` stores both arguments as they are. */
    constructor (baseUrl: string, servicePath: Option<string>)
      ensures this.baseUrl == baseUrl && this.servicePath == servicePath
    {
      this.baseUrl := baseUrl;
      this.servicePath := servicePath;
    }

    /**
     * `method(m)`: a new builder for the base URL, then `method(m)`, then
     * `path(servicePath)`. A null verb fails before the path is looked at; a
     * null or empty service path fails in `path`. On success the builder is
     * newly allocated, so no two calls share state, and the service path is its
     * one and only segment, not split at its slashes.
     */
    method Method(m: Option<string>) returns (r: Result<SimpleRequestBuilder, Exception>)
      ensures m.None? ==> r == Failure(NullPointer(Some("path required")))
      ensures m.Some? && servicePath.None? ==> r == Failure(NullPointer(None))
      ensures m.Some? && servicePath == Some("") ==> r == Failure(IllegalArgument("non-empty path required"))
      ensures r.Success? <==> m.Some? && servicePath.Some? && servicePath.value != ""
      ensures r.Success? ==>
        && fresh(r.value)
        && r.value.Valid()
        && r.value.base == StripTrailingSlash(baseUrl)
        && r.value.verb == m.value
        && r.value.paths == [servicePath.value]
        && r.value.queryParams == [] && r.value.headerParams == [] && r.value.formParams == []
        && r.value.data == Null
    {
      var builder := new SimpleRequestBuilder(baseUrl);
      var outcome := builder.Method(m);
      if outcome.Throw? {
        return Failure(outcome.exception);
      }
      outcome := builder.Path(servicePath);
      if outcome.Throw? {
        return Failure(outcome.exception);
      }
      r := Success(builder);
    }
  }

  /**
   * What a call through a generated client requests: for a client of base
   * `host + "/"` and service path `/service/todo`, a call with verb `GET` and
   * method path segment `list` is `GET host//service/todo/list`.
   */
  method SeededCallExample(host: string) returns (s: string)
    ensures s == "GET " + host + "//service/todo/list"
  {
    var client := new SimpleRestClient(host + "/", Some("/service/todo"));
    var r := client.Method(Some("GET"));
    var builder := r.value;
    var _ := builder.Path(Some("list"));
    assert builder.paths == ["/service/todo", "list"];
    SeededUri(host);
    s := builder.ToString();
    assert s == "GET" + " " + (host + "//service/todo/list");
  }

  /** The URI of that call: the base loses its trailing slash and the service path keeps its leading one. */
  lemma SeededUri(host: string)
    ensures UriOf(StripTrailingSlash(host + "/"), ["/service/todo", "list"], []) == host + "//service/todo/list"
  {
    assert StripTrailingSlash(host + "/") == host;
    UnsplitSegment(host, "service/todo", "list");
    assert ["/" + "service/todo", "list"] == ["/service/todo", "list"] by {
      assert "/" + "service/todo" == "/service/todo";
    }
    assert host + "//" + "service/todo" + "/" + "list" == host + "//service/todo/list" by {
      assert "//" + "service/todo" + "/" + "list" == "//service/todo/list";
      assert host + "//" + "service/todo" + "/" + "list" == host + ("//" + "service/todo" + "/" + "list");
    }
  }
}

/**
  URL parsing as the application sees it. `new URL(s)` (the WHATWG URL
  Standard, section 4.4 "URL parsing") is not modelled: it is an arbitrary
  parser supplied by the caller, which either throws (None) or yields the
  three parts the application reads.
 */
module Url {
  import opened JsValue

  /** `url.hostname`, `url.pathname`, and the name/value pairs of `url.searchParams`, in order and already percent-decoded. */
  datatype UrlParts = UrlParts(hostname: string, pathname: string, query: seq<(string, string)>)

  /** `new URL(s)`: None when the constructor throws. */
  type Parser = string -> Option<UrlParts>

  /** `url.searchParams.get(name)`: the value of the first pair with that name. */
  function SearchParam(query: seq<(string, string)>, name: string): (r: Option<string>)
    ensures r.None? <==> forall k :: 0 <= k < |query| ==> query[k].0 != name
    ensures r.Some? ==> exists k :: 0 <= k < |query| && query[k] == (name, r.value)
                                    && forall j :: 0 <= j < k ==> query[j].0 != name
    decreases |query|
  {
    if |query| == 0 then None
    else if query[0].0 == name then Some(query[0].1)
    else
      var r := SearchParam(query[1..], name);
      assert r.Some? ==> exists k :: 0 <= k < |query| && query[k] == (name, r.value)
                                   && forall j :: 0 <= j < k ==> query[j].0 != name by {
        if r.Some? {
          var k :| 0 <= k < |query[1..]| && query[1..][k] == (name, r.value)
                   && forall j :: 0 <= j < k ==> query[1..][j].0 != name;
          assert query[k + 1] == (name, r.value);
          assert forall j :: 0 <= j < k + 1 ==> query[j].0 != name by {
            forall j | 0 <= j < k + 1 ensures query[j].0 != name {
              if j > 0 { assert query[j] == query[1..][j - 1]; }
            }
          }
        }
      }
      r
  }
}

/** `MethodBlockingMiddleware`: a table of routes and the methods each one
    allows. A request to a listed route (compared after lower-casing the path)
    with a method outside its set is answered 405 with an `Allow` header
    (RFC 9110 sections 15.5.6 and 10.2.1) and never reaches the next
    delegate; every other request is passed on untouched. */
module MethodBlocking {
  import opened Wrappers
  import opened Text

  const RegisterRoute: string := "/authentication/register"
  const Status405MethodNotAllowed: int := 405
  const MethodNotAllowedBody: string := "Method Not Allowed"

  /** `_routeMethodRestrictions`; a one-element `HashSet` enumerates as its one element. */
  const RouteMethodRestrictions: map<string, seq<string>> := map[RegisterRoute := ["POST"]]

  datatype HttpRequest = HttpRequest(path: string, httpMethod: string)

  class HttpResponse {
    var statusCode: int
    var headers: map<string, string>
    var body: string

    constructor ()
      ensures statusCode == 200 && headers == map[] && body == ""
    {
      statusCode, headers, body := 200, map[], "";
    }
  }

  /** `TryGetValue` on the lower-cased path. */
  function AllowedMethods(request: HttpRequest): Option<seq<string>> {
    var path := ToLowerInvariant(request.path);
    if path in RouteMethodRestrictions then Some(RouteMethodRestrictions[path]) else None
  }

  /** The request is stopped: a restricted route, a method not in its set
      (ordinal comparison, as the default `HashSet<string>` does). */
  predicate Blocks(request: HttpRequest) {
    AllowedMethods(request).Some? && request.httpMethod !in AllowedMethods(request).value
  }

  /** `Invoke`: either answer 405 here, or hand the request to `next`
      (`calledNext`) with the response as it was. */
  method Invoke(request: HttpRequest, response: HttpResponse) returns (calledNext: bool)
    modifies response
    ensures calledNext <==> !Blocks(request)
    ensures !calledNext ==>
      && response.statusCode == Status405MethodNotAllowed
      && response.headers == old(response.headers)["Allow" := Join(", ", AllowedMethods(request).value)]
      && response.body == old(response.body) + MethodNotAllowedBody
    ensures calledNext ==> unchanged(response)
  {
    var requestPath := ToLowerInvariant(request.path);
    var requestMethod := request.httpMethod;
    if requestPath in RouteMethodRestrictions {
      var allowedMethods := RouteMethodRestrictions[requestPath];
      if requestMethod !in allowedMethods {
        response.statusCode := Status405MethodNotAllowed;
        response.headers := response.headers["Allow" := Join(", ", allowedMethods)];
        response.body := response.body + MethodNotAllowedBody;
        return false;
      }
    }
    calledNext := true;
  }

  /** The only restriction: the register route, in any letter case, with any
      method but exactly "POST"; the Allow header then reads "POST". */
  lemma BlocksExactly(request: HttpRequest)
    ensures Blocks(request) <==> ToLowerInvariant(request.path) == RegisterRoute && request.httpMethod != "POST"
    ensures Blocks(request) ==> Join(", ", AllowedMethods(request).value) == "POST"
  {
  }

  /** Paths that differ only in letter case are treated alike. */
  lemma BlocksIgnoresPathCase(path1: string, path2: string, httpMethod: string)
    requires |path1| == |path2|
    requires forall i :: 0 <= i < |path1| ==> UpperChar(path1[i]) == UpperChar(path2[i])
    ensures Blocks(HttpRequest(path1, httpMethod)) == Blocks(HttpRequest(path2, httpMethod))
  {
    ToLowerIgnoresCase(path1, path2);
  }
}

/** `HttpMethodNotAllowedAttribute`: an action selector that turns an action
    away for the listed HTTP methods. */
module HttpMethodNotAllowed {

  /** What the selector may look at; only the request method is consulted. */
  datatype RouteContext = RouteContext(requestMethod: string, path: string)
  datatype ActionDescriptor = ActionDescriptor(displayName: string)

  /** `Enumerable.Contains` with ordinal string equality. */
  function Contains(xs: seq<string>, x: string): (r: bool)
    ensures r <==> exists i :: 0 <= i < |xs| && xs[i] == x
  {
    if xs == [] then false else xs[0] == x || Contains(xs[1..], x)
  }

  datatype HttpMethodNotAllowedAttribute = HttpMethodNotAllowedAttribute(httpMethods: seq<string>) {

    /** `IsValidForRequest`: valid iff the request method is none of the listed ones. */
    predicate IsValidForRequest(routeContext: RouteContext, action: ActionDescriptor)
      ensures IsValidForRequest(routeContext, action) <==>
        forall i :: 0 <= i < |httpMethods| ==> httpMethods[i] != routeContext.requestMethod
    {
      !Contains(httpMethods, routeContext.requestMethod)
    }
  }

  /** With no methods listed every request is valid; and the path and action
      never change the answer. */
  lemma OnlyTheMethodMatters(attribute: HttpMethodNotAllowedAttribute, c1: RouteContext, c2: RouteContext,
                             a1: ActionDescriptor, a2: ActionDescriptor)
    ensures attribute.httpMethods == [] ==> attribute.IsValidForRequest(c1, a1)
    ensures c1.requestMethod == c2.requestMethod ==>
      attribute.IsValidForRequest(c1, a1) == attribute.IsValidForRequest(c2, a2)
  {
  }
}

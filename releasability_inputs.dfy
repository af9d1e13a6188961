/**
 * What both releasability coordinators read from the cloud, already
 * decoded: the Lambda functions that implement the checks, the
 * subscriptions of the trigger topic, and the notifications the checks
 * post back. Listings arrive in pages; a listing is drained by following
 * the continuation marker of each page.
 */
module ReleasabilityInputs {
  import opened Py
  import opened Json

  /**
   * One decoded notification: `type`, `requestUUID`, `checkName` and the
   * optional `message`, which is `None` when the key is absent and
   * `Some(None)` when it holds JSON `null`.
   */
  datatype Notification = Notification(kind: string, requestUUID: string, checkName: string, message: Option<Option<string>>)

  /** A publication to a topic: the topic and the request sent there. */
  datatype Publication = Publication(topicArn: string, request: Json)

  datatype LambdaFunction = LambdaFunction(functionArn: string, timeout: int)

  datatype Subscription = Subscription(endpoint: string)

  /**
   * One page of a listing and whether the service announced another one.
   * The i-th request of a drain returns the i-th page; a request past the
   * last given page returns an empty final page.
   */
  datatype Page<T> = Page(items: seq<T>, hasNext: bool)

  /** The items a drain collects: each page's items, as long as a next page was announced. */
  function Drained<T>(pages: seq<Page<T>>): seq<T>
    decreases |pages|
  {
    if |pages| == 0 then []
    else pages[0].items + (if pages[0].hasNext then Drained(pages[1..]) else [])
  }

  /** The pagination loop: request the first page, then keep following the marker. */
  method Drain<T>(pages: seq<Page<T>>) returns (items: seq<T>)
    ensures items == Drained(pages)
  {
    var response := if |pages| > 0 then pages[0] else Page([], false);
    var rest := if |pages| > 0 then pages[1..] else [];
    items := response.items;
    while response.hasNext
      invariant items + (if response.hasNext then Drained(rest) else []) == Drained(pages)
      decreases |rest| + (if response.hasNext then 1 else 0)
    {
      response := if |rest| > 0 then rest[0] else Page([], false);
      rest := if |rest| > 0 then rest[1..] else [];
      items := items + response.items;
    }
  }

  /**
   * The subscription drain as written: the follow-up request passes the
   * page's `Subscriptions` list where the continuation token belongs, which
   * the client's parameter validation rejects.
   */
  function DrainSubscriptionsAsWritten(pages: seq<Page<Subscription>>): (r: Result<seq<Subscription>>)
  {
    if |pages| > 0 && pages[0].hasNext
    then Err(Raised("ParamValidationError", "Invalid type for parameter NextToken"))
    else Ok(if |pages| > 0 then pages[0].items else [])
  }

  /** As written, subscriptions can be listed only when they fit on one page. */
  lemma SubscriptionDrainAsWrittenFailsOnSecondPage(pages: seq<Page<Subscription>>)
    ensures DrainSubscriptionsAsWritten(pages).Ok? <==> |pages| == 0 || !pages[0].hasNext
    ensures DrainSubscriptionsAsWritten(pages).Ok? ==> DrainSubscriptionsAsWritten(pages).value == Drained(pages)
  {
  }

  function Endpoints(subscriptions: seq<Subscription>): (r: seq<string>)
    ensures |r| == |subscriptions|
    ensures forall i :: 0 <= i < |r| ==> r[i] == subscriptions[i].endpoint
  {
    seq(|subscriptions|, i requires 0 <= i < |subscriptions| => subscriptions[i].endpoint)
  }

  /** The listed functions whose ARN is a subscription endpoint, in listing order. */
  function Subscribed(functions: seq<LambdaFunction>, endpoints: seq<string>): (r: seq<LambdaFunction>)
    ensures |r| <= |functions|
    ensures forall f :: f in r <==> f in functions && f.functionArn in endpoints
    ensures endpoints == [] ==> r == []
    decreases |functions|
  {
    if |functions| == 0 then []
    else
      var rest := Subscribed(functions[1..], endpoints);
      assert forall f :: f in functions <==> f == functions[0] || f in functions[1..];
      if functions[0].functionArn in endpoints then [functions[0]] + rest else rest
  }

  /** The largest of the given timeouts, as Python's `max`. */
  function MaxTimeout(timeouts: seq<int>): (r: int)
    requires |timeouts| > 0
    ensures r in timeouts
    ensures forall t :: t in timeouts ==> t <= r
    decreases |timeouts|
  {
    if |timeouts| == 1 then timeouts[0]
    else
      var rest := MaxTimeout(timeouts[1..]);
      assert forall t :: t in timeouts <==> t == timeouts[0] || t in timeouts[1..];
      if timeouts[0] >= rest then timeouts[0] else rest
  }

  function Timeouts(functions: seq<LambdaFunction>): (r: seq<int>)
    ensures |r| == |functions|
    ensures forall i :: 0 <= i < |r| ==> r[i] == functions[i].timeout
  {
    seq(|functions|, i requires 0 <= i < |functions| => functions[i].timeout)
  }

  /**
   * The expected number of checks (subscribed functions) and the time
   * budget (the largest timeout over all listed functions); `max` of an
   * empty listing raises.
   */
  function ChecksCountAndMaxTimeout(functions: seq<LambdaFunction>, subscriptions: seq<Subscription>): (r: Result<(nat, int)>)
    ensures r.Err? <==> |functions| == 0
    ensures r.Ok? ==> r.value.0 == |Subscribed(functions, Endpoints(subscriptions))|
    ensures r.Ok? ==> exists f :: f in functions && f.timeout == r.value.1
    ensures r.Ok? ==> forall f :: f in functions ==> f.timeout <= r.value.1
  {
    var checks := Subscribed(functions, Endpoints(subscriptions));
    if |functions| == 0 then Err(ValueError("max() arg is an empty sequence"))
    else
      var m := MaxTimeout(Timeouts(functions));
      assert forall f :: f in functions ==> f.timeout in Timeouts(functions);
      Ok((|checks|, m))
  }

  /** `_get_checks_count_and_max_timeout` with the subscription listing drained page by page. */
  method GetChecksCountAndMaxTimeout(functionPages: seq<Page<LambdaFunction>>, subscriptionPages: seq<Page<Subscription>>)
    returns (r: Result<(nat, int)>)
    ensures r == ChecksCountAndMaxTimeout(Drained(functionPages), Drained(subscriptionPages))
  {
    var functions := Drain(functionPages);
    var subscriptions := Drain(subscriptionPages);
    r := ChecksCountAndMaxTimeout(functions, subscriptions);
  }

  /** The count never exceeds the number of listed functions, and is zero without subscriptions. */
  lemma CountBounds(functions: seq<LambdaFunction>, subscriptions: seq<Subscription>)
    requires |functions| > 0
    ensures ChecksCountAndMaxTimeout(functions, subscriptions).value.0 <= |functions|
    ensures subscriptions == [] ==> ChecksCountAndMaxTimeout(functions, subscriptions).value.0 == 0
  {
  }
}

/** Following the numbered pages of a collection served by an arbitrary server. */
module Pagination {
  import opened Basics

  type Params = map<string, string>

  datatype OffsetField = NoOffset | BadOffset | PageNumber(number: int)

  /** The next-page link, once it is known to stay on the collection's own path. */
  datatype Next = NoNext | UnsafeNext | NextPage(params: Params)

  /**
    One reply. A count or total that is not an integer is `None`; `plain` says that the
    document is an unpaged collection whose only link is its own path.
   */
  datatype Reply<E> =
    | Fault
    | Page(elements: seq<E>, count: Option<int>, total: Option<int>, offset: OffsetField, plain: bool, next: Next)

  datatype Request = Request(path: string, params: Params)

  datatype Failure = PageBound | LinkLoop | InvalidOffset | BadReply | Inconsistent | UnsafeLink | ScopeLost

  // ----- page numbers as text -----

  predicate IsDigit(c: char) {
    '0' <= c <= '9'
  }

  predicate AllDigits(s: string) {
    forall i :: 0 <= i < |s| ==> IsDigit(s[i])
  }

  function DigitValue(c: char): nat
    requires IsDigit(c)
  {
    c as int - '0' as int
  }

  function DigitChar(d: nat): (c: char)
    requires d < 10
    ensures IsDigit(c) && DigitValue(c) == d
  {
    ('0' as int + d) as char
  }

  function Value(s: string): nat
    requires AllDigits(s)
  {
    if s == "" then 0 else
      assert IsDigit(s[|s| - 1]);
      Value(s[..|s| - 1]) * 10 + DigitValue(s[|s| - 1])
  }

  function Parse(s: string): Option<nat> {
    if s != "" && AllDigits(s) then Some(Value(s)) else None
  }

  function Decimal(n: nat): string {
    (if n < 10 then "" else Decimal(n / 10)) + [DigitChar(n % 10)]
  }

  lemma ValueExtends(front: string, last: char)
    requires AllDigits(front) && IsDigit(last)
    ensures Parse(front + [last]) == Some(Value(front) * 10 + DigitValue(last))
  {
    hide DigitValue, IsDigit;
    var s := front + [last];
    assert s[..|s| - 1] == front && s[|s| - 1] == last;
  }

  lemma {:induction false} DecimalParses(n: nat)
    ensures Parse(Decimal(n)) == Some(n)
  {
    hide DigitValue, IsDigit, DigitChar, Parse;
    var front := if n < 10 then "" else Decimal(n / 10);
    if n >= 10 {
      DecimalParses(n / 10);
      ParsedDigits(front);
    }
    ValueExtends(front, DigitChar(n % 10));
  }

  lemma ParsedDigits(s: string)
    requires Parse(s).Some?
    ensures AllDigits(s) && Parse(s) == Some(Value(s))
  {
  }

  // ----- what a complete collection looks like -----

  ghost function Gathered<E>(replies: seq<Reply<E>>, n: nat): seq<E>
    requires n <= |replies|
  {
    if n == 0 then []
    else Gathered(replies, n - 1) + (if replies[n - 1].Page? then replies[n - 1].elements else [])
  }

  predicate Unpaged<E>(reply: Reply<E>, maxItems: int) {
    && reply.Page? && reply.offset.NoOffset? && reply.plain
    && reply.count == Some(|reply.elements|) == reply.total
    && |reply.elements| <= maxItems
  }

  predicate Numbered<E>(reply: Reply<E>, page: int, total: int, maxItems: int) {
    && reply.Page? && reply.offset == PageNumber(page)
    && reply.count == Some(|reply.elements|) && reply.total == Some(total) && 0 <= total <= maxItems
  }

  predicate Preserves(params: Params, more: Params) {
    forall key | key in params :: key in more && more[key] == params[key]
  }

  predicate Continues(params: Params, next: Next, page: nat) {
    match next
    case NoNext => true
    case UnsafeNext => false
    case NextPage(more) => "offset" in more && Parse(more["offset"]) == Some(page) && Preserves(params, more)
  }

  /** The link after page `page` of `pages`: none at the end; before it none or one to the next page in the same scope. */
  predicate LeadsOn(params: Params, next: Next, page: nat, pages: nat) {
    match next
    case NoNext => true
    case UnsafeNext => false
    case NextPage(more) =>
      && page < pages
      && "offset" in more && Parse(more["offset"]) == Some(page + 1)
      && forall key :: key in params ==> key in more && more[key] == params[key]
  }

  /** What the reply to request `page` is like when the collection ends with the error. */
  predicate Blames<E>(error: Failure, params: Params, reply: Reply<E>, page: nat) {
    match error
    case BadReply => reply.Fault? || (reply.offset != NoOffset && (reply.count == None || reply.total == None || reply.offset == BadOffset))
    case UnsafeLink => reply.Page? && reply.next == UnsafeNext
    case ScopeLost => reply.Page? && reply.next.NextPage? && !LeadsOn(params, reply.next, page, page + 1)
    case Inconsistent => reply.Page?
    case _ => false
  }

  /** Reply `i` is page `i + 1`, it is not the last one, and it leads on to the next. */
  ghost predicate Intermediate<E>(params: Params, replies: seq<Reply<E>>, i: nat, total: int, maxItems: int)
    requires i < |replies|
  {
    && Numbered(replies[i], i + 1, total, maxItems)
    && replies[i].elements != [] && |Gathered(replies, i + 1)| < total
    && Continues(params, replies[i].next, i + 2)
  }

  /** Pages 1 to `n` came in order, announced the same total, and did not reach it yet. */
  ghost predicate Prefix<E>(params: Params, replies: seq<Reply<E>>, n: nat, total: int, maxItems: int) {
    n <= |replies| && forall i :: 0 <= i < n ==> Intermediate(params, replies, i, total, maxItems)
  }

  ghost predicate Paged<E>(params: Params, replies: seq<Reply<E>>, n: nat, total: int, maxItems: int) {
    && 1 <= n <= |replies|
    && Prefix(params, replies, n - 1, total, maxItems)
    && Numbered(replies[n - 1], n, total, maxItems)
    && |Gathered(replies, n)| == total
    && replies[n - 1].next == NoNext
  }

  ghost predicate Served<E>(params: Params, replies: seq<Reply<E>>, n: nat, maxPages: int, maxItems: int) {
    n <= maxPages && exists total :: Paged(params, replies, n, total, maxItems)
  }

  /** The request for page `page`: the collection's own path and every scope parameter. */
  predicate Asks(request: Request, path: string, params: Params, page: nat) {
    && request.path == path
    && "offset" in request.params && Parse(request.params["offset"]) == Some(page)
    && forall key | key in params && key != "offset" :: key in request.params && request.params[key] == params[key]
  }

  /** What every complete run demands of reply `page`, after `gathered` elements. */
  predicate Fits<E>(params: Params, reply: Reply<E>, page: nat, gathered: nat, total: int, maxItems: int) {
    && Numbered(reply, page, total, maxItems)
    && gathered + |reply.elements| <= total
    && (if gathered + |reply.elements| == total then reply.next == NoNext
        else reply.elements != [] && Continues(params, reply.next, page + 1))
  }

  predicate Acceptable<E>(params: Params, reply: Reply<E>, page: nat, gathered: nat, expected: Option<int>, maxItems: int) {
    && reply.Page? && reply.total.Some? && (expected.Some? ==> reply.total == expected)
    && Fits(params, reply, page, gathered, reply.total.value, maxItems)
  }

  /** The first `n` replies are in order so far, and `expected` is the total they announce. */
  ghost predicate Sofar<E>(params: Params, replies: seq<Reply<E>>, n: nat, expected: Option<int>, maxItems: int) {
    if n == 0 then expected.None? else expected.Some? && Prefix(params, replies, n, expected.value, maxItems)
  }

  ghost function Size<E>(params: Params, replies: seq<Reply<E>>, n: nat, expected: Option<int>, maxItems: int): nat
    requires Sofar(params, replies, n, expected, maxItems)
  {
    if n == 0 then 0 else |Gathered(replies, n)|
  }

  /** A complete run goes beyond what was taken, agrees on the total, and its next reply fits. */
  lemma RunGoesOn<E>(params: Params, replies: seq<Reply<E>>, n: nat, expected: Option<int>, m: nat, total: int, maxItems: int)
    requires Sofar(params, replies, n, expected, maxItems) && Paged(params, replies, m, total, maxItems)
    ensures n < m && (n > 0 ==> expected == Some(total))
    ensures Fits(params, replies[n], n + 1, Size(params, replies, n, expected, maxItems), total, maxItems)
  {
    if n > 0 {
      assert Intermediate(params, replies, 0, expected.value, maxItems);
      assert m > 1 ==> Intermediate(params, replies, 0, total, maxItems);
      assert forall i :: 0 <= i < n ==> Intermediate(params, replies, i, total, maxItems);
    }
    assert n + 1 < m ==> Intermediate(params, replies, n, total, maxItems);
    assert m <= n ==> Intermediate(params, replies, m - 1, total, maxItems);
  }

  lemma FirstNumbered<E>(params: Params, replies: seq<Reply<E>>, n: nat, expected: Option<int>, maxItems: int)
    requires n > 0 && Sofar(params, replies, n, expected, maxItems)
    ensures !Unpaged(replies[0], maxItems)
  {
    assert Intermediate(params, replies, 0, expected.value, maxItems);
  }

  /** A reply that fits nowhere ends every hope of a complete run. */
  lemma Broken<E>(params: Params, replies: seq<Reply<E>>, n: nat, expected: Option<int>, maxPages: int, maxItems: int)
    requires n < |replies| && Sofar(params, replies, n, expected, maxItems)
    requires !Acceptable(params, replies[n], n + 1, Size(params, replies, n, expected, maxItems), expected, maxItems)
    ensures !exists m :: Served(params, replies, m, maxPages, maxItems)
  {
    hide Continues, Paged, Prefix;
    forall m: nat, total | m <= maxPages && Paged(params, replies, m, total, maxItems) ensures false {
      RunGoesOn(params, replies, n, expected, m, total, maxItems);
    }
  }

  lemma BoundExceeded<E>(params: Params, replies: seq<Reply<E>>, n: nat, expected: Option<int>, maxPages: int, maxItems: int)
    requires Sofar(params, replies, n, expected, maxItems) && n + 1 > maxPages
    ensures !exists m :: Served(params, replies, m, maxPages, maxItems)
  {
    hide Fits, Paged, Prefix;
    forall m: nat, total | m <= maxPages && Paged(params, replies, m, total, maxItems) ensures false {
      RunGoesOn(params, replies, n, expected, m, total, maxItems);
    }
  }

  lemma PrefixExtends<E>(params: Params, replies: seq<Reply<E>>, n: nat, expected: Option<int>, total: int, maxItems: int)
    requires n < |replies| && Sofar(params, replies, n, expected, maxItems) && (n > 0 ==> expected == Some(total))
    requires Fits(params, replies[n], n + 1, Size(params, replies, n, expected, maxItems), total, maxItems)
    requires Size(params, replies, n, expected, maxItems) + |replies[n].elements| < total
    ensures Sofar(params, replies, n + 1, Some(total), maxItems)
    ensures Size(params, replies, n + 1, Some(total), maxItems)
         == Size(params, replies, n, expected, maxItems) + |replies[n].elements|
  {
    assert Intermediate(params, replies, n, total, maxItems);
    assert forall i :: 0 <= i < n ==> Intermediate(params, replies, i, total, maxItems);
  }

  lemma RunCompletes<E>(params: Params, replies: seq<Reply<E>>, n: nat, expected: Option<int>, total: int,
                        maxPages: int, maxItems: int)
    requires n < |replies| && n < maxPages && Sofar(params, replies, n, expected, maxItems)
    requires n > 0 ==> expected == Some(total)
    requires Fits(params, replies[n], n + 1, Size(params, replies, n, expected, maxItems), total, maxItems)
    requires Size(params, replies, n, expected, maxItems) + |replies[n].elements| == total
    ensures Paged(params, replies, n + 1, total, maxItems) && Served(params, replies, n + 1, maxPages, maxItems)
  {
    assert Paged(params, replies, n + 1, total, maxItems);
  }

  lemma PagedShape<E>(params: Params, replies: seq<Reply<E>>, n: nat, total: int, maxItems: int)
    requires Paged(params, replies, n, total, maxItems)
    ensures forall i :: 0 <= i < n ==>
      && replies[i].Page? && replies[i].count == Some(|replies[i].elements|) && replies[i].total == Some(total)
      && replies[i].offset == PageNumber(i + 1) && LeadsOn(params, replies[i].next, i + 1, n)
  {
    forall i | 0 <= i < n - 1
      ensures replies[i].Page? && replies[i].count == Some(|replies[i].elements|) && replies[i].total == Some(total)
      ensures replies[i].offset == PageNumber(i + 1) && LeadsOn(params, replies[i].next, i + 1, n)
    {
      assert Intermediate(params, replies, i, total, maxItems);
    }
  }

  lemma NothingTaken<E>(params: Params, replies: seq<Reply<E>>, maxItems: int)
    ensures Sofar(params, replies, 0, None, maxItems)
  {
  }

  /** The values collected from the first `n` replies. */
  ghost predicate Taken<E>(replies: seq<Reply<E>>, n: nat, values: seq<E>) {
    n <= |replies| && values == Gathered(replies, n)
  }

  lemma TakenMore<E>(replies: seq<Reply<E>>, n: nat, values: seq<E>)
    requires n < |replies| && replies[n].Page? && Taken(replies, n, values)
    ensures Taken(replies, n + 1, values + replies[n].elements)
  {
  }

  // ----- the loop -----

  lemma FirstPageParses()
    ensures Parse("1") == Some(1)
  {
    assert Decimal(1) == "1";
    DecimalParses(1);
  }

  /**
    `_collection` against a server that gives `replies[i]` to the i-th request. It succeeds
    exactly on an unpaged collection or on a complete run of pages within the page bound,
    returns their elements in order, and its loop guard never fires.
   */
  method Collection<E>(path: string, params: Params, maxPages: int, maxItems: int, replies: seq<Reply<E>>)
    returns (result: Result<seq<E>, Failure>, requests: seq<Request>)
    requires maxPages <= |replies|
    ensures forall i :: 0 <= i < |requests| ==> Asks(requests[i], path, params, i + 1)
    ensures |requests| == 0 || |requests| <= maxPages
    ensures result.Ok? ==>
      || (|requests| == 1 && Unpaged(replies[0], maxItems) && result.value == replies[0].elements)
      || (exists total :: Paged(params, replies, |requests|, total, maxItems)
                          && result.value == Gathered(replies, |requests|) && |result.value| == total)
    ensures result.Ok? <==>
      (maxPages >= 1 && Unpaged(replies[0], maxItems)) || exists n :: Served(params, replies, n, maxPages, maxItems)
    ensures result != Err(LinkLoop) && result != Err(InvalidOffset)
    ensures result.Ok? ==> requests != [] && |result.value| <= maxItems
    ensures result.Ok? ==> forall i :: 0 <= i < |requests| ==>
      replies[i].Page? && replies[i].count == Some(|replies[i].elements|) && replies[i].total == Some(|result.value|)
    ensures result.Ok? ==>
      || (|requests| == 1 && replies[0].offset == NoOffset && replies[0].plain)
      || (forall i :: 0 <= i < |requests| ==> replies[i].offset == PageNumber(i + 1) && LeadsOn(params, replies[i].next, i + 1, |requests|))
    ensures maxPages >= 1 && replies[0].Page? && replies[0].offset == NoOffset && replies[0].plain
            && replies[0].count == Some(|replies[0].elements|) && replies[0].total == Some(|replies[0].elements|)
            && |replies[0].elements| <= maxItems ==>
      result == Ok(replies[0].elements)
    ensures result == Err(PageBound) ==> |requests| == if maxPages < 0 then 0 else maxPages
    ensures result.Err? && result.error != PageBound ==> requests != [] && Blames(result.error, params, replies[|requests| - 1], |requests|)
  {
    hide Served, Parse, Decimal, Sofar, Prefix, Paged;
    var current := params["offset" := "1"];
    var values: seq<E> := [];
    var visited: set<Request> := {};
    var expected: Option<int> := None;
    var pages := 0;
    requests := [];
    FirstPageParses();
    assert Sofar(params, replies, 0, None, maxItems) by { NothingTaken(params, replies, maxItems); }
    while true
      invariant 0 <= pages == |requests| && (pages == 0 || pages <= maxPages)
      invariant forall i :: 0 <= i < pages ==> Asks(requests[i], path, params, i + 1)
      invariant forall request :: request in visited ==> request in requests
      invariant Asks(Request(path, current), path, params, pages + 1)
      invariant expected.None? <==> pages == 0
      invariant Sofar(params, replies, pages, expected, maxItems)
      invariant |values| == Size(params, replies, pages, expected, maxItems)
      invariant Taken(replies, pages, values)
      decreases maxPages - pages
    {
      if pages > 0 {
        FirstNumbered(params, replies, pages, expected, maxItems);
      }
      if pages + 1 > maxPages {
        BoundExceeded(params, replies, pages, expected, maxPages, maxItems);
        return Err(PageBound), requests;
      }
      var request := Request(path, current);
      if request in visited {
        assert false;
        return Err(LinkLoop), requests;
      }
      visited := visited + {request};
      if "offset" !in current || Parse(current["offset"]).None? {
        assert false;
        return Err(InvalidOffset), requests;
      }
      requests := requests + [request];
      ghost var taken, before := pages, expected;
      var reply := replies[pages];
      pages := pages + 1;
      if reply.Fault? {
        Broken(params, replies, taken, before, maxPages, maxItems);
        return Err(BadReply), requests;
      }
      if reply.offset.NoOffset? {
        Broken(params, replies, taken, before, maxPages, maxItems);
        if pages != 1 || values != [] || !Unpaged(reply, maxItems) {
          return Err(Inconsistent), requests;
        }
        return Ok(reply.elements), requests;
      }
      if reply.count.None? || reply.total.None? || reply.offset.BadOffset? {
        Broken(params, replies, taken, before, maxPages, maxItems);
        return Err(BadReply), requests;
      }
      if expected.None? {
        expected := reply.total;
      }
      if reply.count.value != |reply.elements| || reply.offset.number != pages || reply.total.value < 0
         || reply.total.value > maxItems || reply.total != expected
         || |values| + reply.count.value > reply.total.value
         || (reply.count.value == 0 && |values| < reply.total.value)
      {
        Broken(params, replies, taken, before, maxPages, maxItems);
        return Err(Inconsistent), requests;
      }
      TakenMore(replies, taken, values);
      values := values + reply.elements;
      if |values| == reply.total.value {
        if !reply.next.NoNext? {
          Broken(params, replies, taken, before, maxPages, maxItems);
          return Err(Inconsistent), requests;
        }
        RunCompletes(params, replies, taken, before, expected.value, maxPages, maxItems);
        PagedShape(params, replies, pages, expected.value, maxItems);
        return Ok(values), requests;
      }
      match reply.next
      case UnsafeNext =>
        Broken(params, replies, taken, before, maxPages, maxItems);
        return Err(UnsafeLink), requests;
      case NextPage(more) =>
        if !Continues(params, reply.next, pages + 1) {
          Broken(params, replies, taken, before, maxPages, maxItems);
          return Err(ScopeLost), requests;
        }
        PrefixExtends(params, replies, taken, before, expected.value, maxItems);
        current := more;
      case NoNext =>
        PrefixExtends(params, replies, taken, before, expected.value, maxItems);
        DecimalParses(pages + 1);
        current := current["offset" := Decimal(pages + 1)];
    }
  }
}

/** walkMemoryPages (cmd/cortexdb-mcp-stdio/remote_bulk.go): a paged listing read from any server. */
module Pager {
  import opened Wrappers

  datatype Reply<R> = Failed | Page(records: seq<R>, truncated: bool, next: string)

  /** What the server answers to its k-th call, asked to resume from a cursor: anything at all. */
  type Server<R> = (nat, string) -> Reply<R>

  datatype WalkError = FetchFailed | EmptyPage | NoCursor | SameCursor | TooManyPages

  const MAX_PAGES: nat := 10_000

  // ------------------------------------------------------ what a walk asks for

  /** The cursor the k-th call resumes from: the one the reply before it gave. */
  function CursorAt<R>(fetch: Server<R>, k: nat): string {
    if k == 0 then ""
    else
      var before := fetch(k - 1, CursorAt(fetch, k - 1));
      if before.Page? then before.next else ""
  }

  function ReplyAt<R>(fetch: Server<R>, k: nat): Reply<R> {
    fetch(k, CursorAt(fetch, k))
  }

  /** The records of the first n pages, in order. */
  function Fetched<R>(fetch: Server<R>, n: nat): seq<R> {
    if n == 0 then []
    else
      var last := ReplyAt(fetch, n - 1);
      Fetched(fetch, n - 1) + if last.Page? then last.records else []
  }

  predicate LimitReached<R>(fetch: Server<R>, limit: int, n: nat) {
    limit > 0 && |Fetched(fetch, n)| >= limit
  }

  /** A whole page, with more to come and a new place to resume. */
  predicate GoesOn<R>(fetch: Server<R>, limit: int, k: nat) {
    var r := ReplyAt(fetch, k);
    && r.Page? && r.truncated && r.records != [] && r.next != "" && r.next != CursorAt(fetch, k)
    && !LimitReached(fetch, limit, k + 1)
  }

  /** A page that ends the walk well: the last, or enough for the limit. */
  predicate Ends<R>(fetch: Server<R>, limit: int, k: nat) {
    var r := ReplyAt(fetch, k);
    r.Page? && !(r.truncated && r.records == []) && (LimitReached(fetch, limit, k + 1) || !r.truncated)
  }

  ghost predicate Leads<R>(fetch: Server<R>, limit: int, n: nat) {
    forall k :: 0 <= k < n ==> GoesOn(fetch, limit, k)
  }

  /** What is returned when page k ends the walk. */
  function Result<R>(fetch: Server<R>, limit: int, k: nat): seq<R> {
    var all := Fetched(fetch, k + 1);
    if LimitReached(fetch, limit, k + 1) then all[..limit] else all
  }

  ghost predicate FailsWith<R>(fetch: Server<R>, limit: int, k: nat, e: WalkError) {
    var r := ReplyAt(fetch, k);
    match e
    case FetchFailed => r.Failed?
    case EmptyPage => r.Page? && r.truncated && r.records == []
    case NoCursor => r.Page? && r.truncated && r.records != [] && !LimitReached(fetch, limit, k + 1) && r.next == ""
    case SameCursor =>
      && r.Page? && r.truncated && r.records != [] && !LimitReached(fetch, limit, k + 1)
      && r.next != "" && r.next == CursorAt(fetch, k)
    case TooManyPages => k == MAX_PAGES && GoesOn(fetch, limit, k)
  }

  /** The outcome of a walk whose last call is the k-th. */
  ghost predicate Outcome<R>(fetch: Server<R>, limit: int, k: nat, r: Wrappers.Result<seq<R>, WalkError>) {
    && k <= MAX_PAGES && Leads(fetch, limit, k)
    && match r
       case Ok(all) => Ends(fetch, limit, k) && all == Result(fetch, limit, k)
       case Err(e) => FailsWith(fetch, limit, k, e)
  }

  /** calls is how many times the server was asked. */
  method WalkMemoryPages<R>(fetch: Server<R>, limit: int) returns (r: Wrappers.Result<seq<R>, WalkError>, calls: nat)
    ensures 0 < calls <= 10_001 && Outcome(fetch, limit, calls - 1, r)
  {
    var all: seq<R> := [];
    var cursor := "";
    calls := 0;
    while true
      invariant calls <= MAX_PAGES + 1 && Leads(fetch, limit, calls)
      invariant cursor == CursorAt(fetch, calls) && all == Fetched(fetch, calls)
      decreases MAX_PAGES + 1 - calls
    {
      if calls > MAX_PAGES {
        return Err(TooManyPages), calls;
      }
      var reply := fetch(calls, cursor);
      calls := calls + 1;
      if reply.Failed? {
        return Err(FetchFailed), calls;
      }
      if reply.truncated && |reply.records| == 0 {
        return Err(EmptyPage), calls;
      }
      all := all + reply.records;
      assert all == Fetched(fetch, calls);
      if limit > 0 && |all| >= limit {
        return Ok(all[..limit]), calls;
      }
      if !reply.truncated {
        return Ok(all), calls;
      }
      if reply.next == "" {
        return Err(NoCursor), calls;
      }
      if reply.next == cursor {
        return Err(SameCursor), calls;
      }
      cursor := reply.next;
    }
  }

  // --------------------------------------------------------- what it promises

  /** At each call one thing happens: the walk goes on, ends, or fails in one way. */
  lemma OneOutcomeAt<R>(fetch: Server<R>, limit: int, k: nat)
    ensures GoesOn(fetch, limit, k) ==> !Ends(fetch, limit, k)
    ensures Ends(fetch, limit, k) ==> forall e :: !FailsWith(fetch, limit, k, e)
    ensures forall e :: FailsWith(fetch, limit, k, e) && GoesOn(fetch, limit, k) ==> e == TooManyPages && k == MAX_PAGES
    ensures forall e, f :: FailsWith(fetch, limit, k, e) && FailsWith(fetch, limit, k, f) ==> e == f
  {
  }

  /** So the outcome is the server's alone: no two fit. */
  lemma OutcomeIsUnique<R>(fetch: Server<R>, limit: int, j: nat, k: nat,
                           r: Wrappers.Result<seq<R>, WalkError>, s: Wrappers.Result<seq<R>, WalkError>)
    requires Outcome(fetch, limit, j, r) && Outcome(fetch, limit, k, s)
    ensures j == k && r == s
  {
    OneOutcomeAt(fetch, limit, j);
    OneOutcomeAt(fetch, limit, k);
  }

  /**
   * A success has no gap: it is the records of every page asked for, in order,
   * each page but the last leading to the next by its cursor; whole and with no
   * more to come when there is no limit, and the first limit of them otherwise.
   */
  lemma SuccessHasNoGap<R>(fetch: Server<R>, limit: int, k: nat, all: seq<R>)
    requires Outcome(fetch, limit, k, Ok(all))
    ensures all <= Fetched(fetch, k + 1)
    ensures forall j :: 0 <= j < k ==> ReplyAt(fetch, j).Page? && CursorAt(fetch, j + 1) == ReplyAt(fetch, j).next != ""
    ensures forall j :: 0 <= j < k ==>
              && ReplyAt(fetch, j).truncated && ReplyAt(fetch, j).records != [] && CursorAt(fetch, j + 1) != CursorAt(fetch, j)
    ensures limit <= 0 ==> all == Fetched(fetch, k + 1) && !ReplyAt(fetch, k).truncated
    ensures limit > 0 ==> |all| <= limit && (|all| < limit ==> all == Fetched(fetch, k + 1) && !ReplyAt(fetch, k).truncated)
  {
    forall j | 0 <= j < k
      ensures ReplyAt(fetch, j).Page? && CursorAt(fetch, j + 1) == ReplyAt(fetch, j).next != ""
      ensures ReplyAt(fetch, j).truncated && ReplyAt(fetch, j).records != [] && CursorAt(fetch, j + 1) != CursorAt(fetch, j)
    {
      assert GoesOn(fetch, limit, j);
    }
  }

  /**
   * And a refusal has a cause: the last call failed; or there were 10,001; or
   * its page says that there is more, and is empty, or gives no cursor or the
   * one it was asked for, with the limit not reached.
   */
  lemma RefusalHasACause<R>(fetch: Server<R>, limit: int, k: nat, e: WalkError)
    requires Outcome(fetch, limit, k, Err(e))
    ensures var r := ReplyAt(fetch, k);
            match e
            case FetchFailed => r == Failed
            case TooManyPages => k == 10_000 && r.Page? && r.truncated
            case EmptyPage => r.Page? && r.truncated && r.records == []
            case NoCursor => r.Page? && r.truncated && r.next == "" && (limit <= 0 || |Fetched(fetch, k + 1)| < limit)
            case SameCursor => r.Page? && r.truncated && r.next == CursorAt(fetch, k) && (limit <= 0 || |Fetched(fetch, k + 1)| < limit)
  {
  }

  // ------------------------------------------------------------ honest servers

  /**
   * Page j of a list: from cuts[j] to cuts[j + 1], found by the name of its
   * start. All but the last say that there is more, and name where it starts;
   * what the last one gives for a cursor does not matter.
   */
  ghost predicate HonestPage<R>(fetch: Server<R>, list: seq<R>, cuts: seq<nat>, name: nat -> string, j: nat)
    requires j + 1 < |cuts|
  {
    && cuts[j] <= cuts[j + 1] <= |list|
    && (j + 2 < |cuts| ==> cuts[j] < cuts[j + 1] && name(j + 1) != "" && name(j + 1) != name(j))
    && forall k: nat :: GivesPage(fetch(k, name(j)), list[cuts[j]..cuts[j + 1]], j + 2 < |cuts|, name(j + 1))
  }

  predicate GivesPage<R(==)>(r: Reply<R>, records: seq<R>, more: bool, next: string) {
    r.Page? && r.records == records && r.truncated == more && (more ==> r.next == next)
  }

  /** A server that pages through a list; only an empty list has an empty page. */
  ghost predicate Honest<R>(fetch: Server<R>, list: seq<R>, cuts: seq<nat>, name: nat -> string) {
    && |cuts| >= 2 && cuts[0] == 0 && cuts[|cuts| - 1] == |list| && name(0) == ""
    && forall j :: 0 <= j < |cuts| - 1 ==> HonestPage(fetch, list, cuts, name, j)
  }

  lemma {:induction false} HonestPages<R>(fetch: Server<R>, list: seq<R>, cuts: seq<nat>, name: nat -> string, j: nat)
    requires Honest(fetch, list, cuts, name) && j < |cuts|
    ensures j + 1 < |cuts| ==> CursorAt(fetch, j) == name(j)
    ensures cuts[j] <= |list| && Fetched(fetch, j) == list[..cuts[j]]
    decreases j
  {
    if j > 0 {
      HonestPages(fetch, list, cuts, name, j - 1);
      assert HonestPage(fetch, list, cuts, name, j - 1);
      assert GivesPage(fetch(j - 1, name(j - 1)), list[cuts[j - 1]..cuts[j]], j + 1 < |cuts|, name(j));
      assert list[..cuts[j]] == list[..cuts[j - 1]] + list[cuts[j - 1]..cuts[j]];
    }
  }

  /** What the walk does at each page of an honest pager. */
  lemma HonestStep<R>(fetch: Server<R>, list: seq<R>, cuts: seq<nat>, name: nat -> string, limit: int, j: nat)
    requires Honest(fetch, list, cuts, name) && j + 1 < |cuts|
    ensures cuts[j + 1] <= |list| && Fetched(fetch, j + 1) == list[..cuts[j + 1]]
    ensures GoesOn(fetch, limit, j) <==> j + 2 < |cuts| && !(limit > 0 && cuts[j + 1] >= limit)
    ensures Ends(fetch, limit, j) <==> !GoesOn(fetch, limit, j)
    ensures forall e :: FailsWith(fetch, limit, j, e) ==> e == TooManyPages
  {
    HonestPages(fetch, list, cuts, name, j);
    HonestPages(fetch, list, cuts, name, j + 1);
    assert HonestPage(fetch, list, cuts, name, j);
    assert GivesPage(fetch(j, name(j)), list[cuts[j]..cuts[j + 1]], j + 2 < |cuts|, name(j + 1));
  }

  // The repository's own pager (pkg/cortexdb/memory_list_all.go), over a listing
  // that stands still: after a cursor's record, at most size more, and a cursor
  // exactly when there are more.

  function NextPage<R>(list: seq<R>, size: nat, cursorOf: nat -> string, position: string -> nat, cursor: string): Reply<R>
    requires size > 0
  {
    var p := if position(cursor) <= |list| then position(cursor) else |list|;
    if |list| - p > size then Page(list[p..p + size], true, cursorOf(p + size)) else Page(list[p..], false, "")
  }

  /** Cursors name positions: the empty one the start, and no other. */
  ghost predicate NamesPositions(cursorOf: nat -> string, position: string -> nat) {
    cursorOf(0) == "" && forall p: nat :: position(cursorOf(p)) == p && (p > 0 ==> cursorOf(p) != "")
  }

  function CutsFrom(p: nat, n: nat, size: nat): (cuts: seq<nat>)
    requires p <= n && size > 0
    ensures |cuts| >= 2 && cuts[0] == p && cuts[|cuts| - 1] == n
    decreases n - p
  {
    if n - p <= size then [p, n] else [p] + CutsFrom(p + size, n, size)
  }

  lemma {:induction false} CutsAreSteps(p: nat, n: nat, size: nat, j: nat)
    requires p <= n && size > 0 && j + 1 < |CutsFrom(p, n, size)|
    ensures var cuts := CutsFrom(p, n, size);
            && cuts[j] <= n
            && (j + 2 < |cuts| <==> n - cuts[j] > size)
            && cuts[j + 1] == if n - cuts[j] > size then cuts[j] + size else n
    decreases j
  {
    if n - p > size && j > 0 {
      CutsAreSteps(p + size, n, size, j - 1);
    }
  }

  /** It is an honest pager of the listing, so every export of it is whole, or refused for its length. */
  lemma ListingIsHonest<R>(fetch: Server<R>, list: seq<R>, size: nat, cursorOf: nat -> string, position: string -> nat)
    requires size > 0 && NamesPositions(cursorOf, position)
    requires forall k: nat, cursor :: fetch(k, cursor) == NextPage(list, size, cursorOf, position, cursor)
    ensures var cuts := CutsFrom(0, |list|, size);
            Honest(fetch, list, cuts, (j: nat) => if j < |cuts| then cursorOf(cuts[j]) else "")
  {
    var cuts := CutsFrom(0, |list|, size);
    var name := (j: nat) => if j < |cuts| then cursorOf(cuts[j]) else "";
    forall j | 0 <= j < |cuts| - 1 ensures HonestPage(fetch, list, cuts, name, j) {
      CutsAreSteps(0, |list|, size, j);
      assert list[cuts[j]..|list|] == list[cuts[j]..];
    }
  }

  /** The walk ends within the list, and fails only at the bound. */
  lemma HonestOutcome<R>(fetch: Server<R>, list: seq<R>, cuts: seq<nat>, name: nat -> string, limit: int, k: nat,
                         r: Wrappers.Result<seq<R>, WalkError>)
    requires Honest(fetch, list, cuts, name) && Outcome(fetch, limit, k, r)
    ensures k + 1 < |cuts| && cuts[k + 1] <= |list|
    ensures r.Ok? ==> Ends(fetch, limit, k) && r.value == if limit > 0 && cuts[k + 1] >= limit then list[..limit] else list[..cuts[k + 1]]
    ensures r.Err? ==> r.error == TooManyPages && k == MAX_PAGES && GoesOn(fetch, limit, k)
  {
    if k + 1 >= |cuts| {
      HonestStep(fetch, list, cuts, name, limit, |cuts| - 2);
      assert false;
    }
    HonestStep(fetch, list, cuts, name, limit, k);
  }

  /**
   * Against an honest pager an export without a limit is the whole list exactly
   * when it has at most 10,001 pages; of a longer one it is refused, never a part.
   */
  lemma HonestWalk<R>(fetch: Server<R>, list: seq<R>, cuts: seq<nat>, name: nat -> string, limit: int, k: nat,
                      r: Wrappers.Result<seq<R>, WalkError>)
    requires Honest(fetch, list, cuts, name) && limit <= 0 && Outcome(fetch, limit, k, r)
    ensures r == if |cuts| - 1 <= MAX_PAGES + 1 then Ok(list) else Err(TooManyPages)
  {
    HonestOutcome(fetch, list, cuts, name, limit, k, r);
    HonestStep(fetch, list, cuts, name, limit, k);
    assert list[..|list|] == list;
  }

  lemma {:induction false} CutsGrow<R>(fetch: Server<R>, list: seq<R>, cuts: seq<nat>, name: nat -> string, i: nat, j: nat)
    requires Honest(fetch, list, cuts, name) && i <= j < |cuts|
    ensures cuts[i] <= cuts[j]
    decreases j
  {
    if i < j {
      CutsGrow(fetch, list, cuts, name, i, j - 1);
      assert HonestPage(fetch, list, cuts, name, j - 1);
    }
  }

  /** With a limit, that many records or the whole list come back exactly when they lie within 10,001 pages. */
  lemma HonestLimitedWalk<R>(fetch: Server<R>, list: seq<R>, cuts: seq<nat>, name: nat -> string, limit: int, k: nat,
                             r: Wrappers.Result<seq<R>, WalkError>)
    requires Honest(fetch, list, cuts, name) && limit > 0 && Outcome(fetch, limit, k, r)
    ensures r.Ok? ==> r.value == if limit <= |list| then list[..limit] else list
    ensures r.Ok? <==> |cuts| - 1 <= MAX_PAGES + 1 || cuts[MAX_PAGES + 1] >= limit
  {
    HonestOutcome(fetch, list, cuts, name, limit, k, r);
    HonestStep(fetch, list, cuts, name, limit, k);
    assert list[..|list|] == list;
    CutsGrow(fetch, list, cuts, name, k + 1, |cuts| - 1);
    if MAX_PAGES + 1 < |cuts| {
      CutsGrow(fetch, list, cuts, name, k + 1, MAX_PAGES + 1);
    }
  }
}

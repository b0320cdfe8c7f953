/** Selecting one transfer of chart pages from the captured traffic (`ChartCaptureRelay.stream` in
    scripts/detection_process_package.py). */
module ChartStream {
  import opened ChartPages
  import opened Options

  datatype Request = Request(id: string, identity: Identity, cursor: Option<string>)
  datatype Reply = Reply(id: string, page: Page)

  datatype Transfer = Transfer(queries: seq<Request>, replies: seq<Reply>)

  // ----- The requests of one transfer

  function Candidates(requests: seq<Request>, requested: Identity): seq<Request> {
    if requests == [] then []
    else Candidates(requests[..|requests| - 1], requested) +
         if requests[|requests| - 1].identity == requested then [requests[|requests| - 1]] else []
  }

  predicate IsInitial(request: Request, id: Option<string>) {
    request.cursor.None? && (id.None? || request.id == id.value)
  }

  function Initials(candidates: seq<Request>, id: Option<string>): nat {
    if candidates == [] then 0
    else Initials(candidates[..|candidates| - 1], id) + if IsInitial(candidates[|candidates| - 1], id) then 1 else 0
  }

  /** The initial request at `start` and the continuations that follow it, up to the next initial request. */
  predicate IsRun(candidates: seq<Request>, start: nat, end: nat) {
    && start < end <= |candidates| && candidates[start].cursor.None?
    && (forall i :: start < i < end ==> candidates[i].cursor.Some?)
    && (end < |candidates| ==> candidates[end].cursor.None?)
  }

  /** The run of the last initial request, which must be the only one with an id that was asked for. */
  predicate IsSelected(candidates: seq<Request>, id: Option<string>, start: nat, end: nat) {
    && IsRun(candidates, start, end) && IsInitial(candidates[start], id)
    && (forall i :: start < i < |candidates| ==> !IsInitial(candidates[i], id))
    && (id.Some? ==> Initials(candidates, id) == 1)
  }

  predicate DistinctIds(requests: seq<Request>) {
    forall i, j :: 0 <= i < j < |requests| ==> requests[i].id != requests[j].id
  }

  // ----- Their replies

  function RepliesTo(log: seq<Reply>, id: string): seq<Reply> {
    if log == [] then []
    else RepliesTo(log[..|log| - 1], id) + if log[|log| - 1].id == id then [log[|log| - 1]] else []
  }

  /** The only reply to a request, for the same identity and starting at the cursor that was asked for. */
  predicate Answers(request: Request, reply: Reply, log: seq<Reply>) {
    && RepliesTo(log, request.id) == [reply]
    && reply.page.header.identity == request.identity
    && reply.page.start == if request.cursor.None? || request.cursor.value == "" then "0" else request.cursor.value
  }

  /** Every request continues where the reply to the one before it ended. */
  predicate Continues(requests: seq<Request>, replies: seq<Reply>, i: nat)
    requires i < |requests| && i <= |replies|
  {
    if i == 0 then requests[0].cursor.None?
    else requests[i].cursor.Some? && requests[i].cursor == replies[i - 1].page.next
  }

  /** All requests are answered, or all but the last one, which is in flight, when that is allowed. */
  predicate IsExchange(requests: seq<Request>, replies: seq<Reply>, log: seq<Reply>, complete: bool) {
    && (|replies| == |requests|
        || (!complete && |replies| + 1 == |requests| && RepliesTo(log, requests[|replies|].id) == []))
    && (forall i :: 0 <= i < |requests| ==> Continues(requests, replies, i))
    && forall i :: 0 <= i < |replies| ==> Answers(requests[i], replies[i], log)
  }

  function IdsOf(replies: seq<Reply>): seq<string> {
    if replies == [] then [] else IdsOf(replies[..|replies| - 1]) + [replies[|replies| - 1].id]
  }

  /** The ids of the replies in the log that are among `ids`. */
  function OrderIn(log: seq<Reply>, ids: set<string>): seq<string> {
    if log == [] then []
    else OrderIn(log[..|log| - 1], ids) + if log[|log| - 1].id in ids then [log[|log| - 1].id] else []
  }

  function Selected(requests: seq<Request>): set<string> {
    set request | request in requests :: request.id
  }

  function PagesOf(replies: seq<Reply>): (pages: seq<Page>)
    ensures |pages| == |replies| && forall i {:trigger pages[i]} :: 0 <= i < |replies| ==> pages[i] == replies[i].page
  {
    if replies == [] then [] else PagesOf(replies[..|replies| - 1]) + [replies[|replies| - 1].page]
  }

  /** What may be published. A complete transfer is a legal paging of one well-formed list of records. */
  ghost predicate IsPublished(t: Transfer, log: seq<Reply>, requested: Identity, complete: bool) {
    && DistinctIds(t.queries) && IsExchange(t.queries, t.replies, log, complete)
    && OrderIn(log, Selected(t.queries)) == IdsOf(t.replies)
    && (complete ==> exists records :: IsTransfer(PagesOf(t.replies), requested, records))
  }

  // ----- The relay

  method FindRun(candidates: seq<Request>, id: Option<string>) returns (found: Option<(nat, nat)>)
    ensures found.Some? ==> IsSelected(candidates, id, found.value.0, found.value.1)
    ensures found.None? ==> forall start: nat, end: nat :: !IsSelected(candidates, id, start, end)
  {
    var start: nat, count: nat := |candidates|, 0;
    for i := 0 to |candidates|
      invariant count == Initials(candidates[..i], id) && (count == 0 <==> start == |candidates|)
      invariant count > 0 ==> 0 <= start < i && IsInitial(candidates[start], id)
      invariant forall j :: 0 <= j < i && (count == 0 || start < j) ==> !IsInitial(candidates[j], id)
    {
      assert candidates[..i + 1][..i] == candidates[..i];
      if IsInitial(candidates[i], id) {
        start, count := i, count + 1;
      }
    }
    assert candidates[..|candidates|] == candidates;
    if count == 0 || (id.Some? && count != 1) {
      return None;
    }
    var end: nat := start + 1;
    while end < |candidates| && candidates[end].cursor.Some?
      invariant start < end <= |candidates| && forall i :: start < i < end ==> candidates[i].cursor.Some?
    {
      end := end + 1;
    }
    return Some((start, end));
  }

  /** The first requests are answered, each continuing the one before it. */
  predicate AnsweredSoFar(requests: seq<Request>, found: seq<Reply>, log: seq<Reply>) {
    && |found| <= |requests|
    && (forall i :: 0 <= i < |found| ==> Continues(requests, found, i))
    && forall i :: 0 <= i < |found| ==> Answers(requests[i], found[i], log)
  }

  lemma AnsweredNext(requests: seq<Request>, found: seq<Reply>, log: seq<Reply>, reply: Reply)
    requires AnsweredSoFar(requests, found, log) && |found| < |requests|
    requires Continues(requests, found, |found|) && Answers(requests[|found|], reply, log)
    ensures AnsweredSoFar(requests, found + [reply], log)
  {
    forall i | 0 <= i <= |found|
      ensures Continues(requests, found + [reply], i)
    {
      assert i < |found| ==> Continues(requests, found, i);
    }
  }

  method CollectReplies(requests: seq<Request>, log: seq<Reply>, complete: bool) returns (replies: Option<seq<Reply>>)
    requires requests != []
    ensures replies.Some? ==> IsExchange(requests, replies.value, log, complete)
    ensures replies.None? ==> forall r :: !IsExchange(requests, r, log, complete)
  {
    var found: seq<Reply>, cursor: Option<string> := [], None;
    for index := 0 to |requests|
      invariant |found| == index && AnsweredSoFar(requests, found, log)
      invariant cursor == if index == 0 then None else found[index - 1].page.next
      invariant forall r :: IsExchange(requests, r, log, complete) ==> found <= r
    {
      var request := requests[index];
      forall r
        ensures IsExchange(requests, r, log, complete) ==> Continues(requests, found, index)
      {
        CursorIs(requests, r, log, complete, index, found);
      }
      if request.cursor != cursor || (index > 0 && cursor.None?) {
        return None;
      }
      var matching := RepliesTo(log, request.id);
      if matching == [] && !complete && index + 1 == |requests| {
        return Some(found);
      }
      forall r | IsExchange(requests, r, log, complete)
        ensures |matching| == 1 && Answers(request, matching[0], log) && found + [matching[0]] <= r
      {
        Unanswered(requests, r, log, complete, index, matching);
        NextReply(requests, r, log, complete, index, matching, found);
      }
      if |matching| != 1 || matching[0].page.header.identity != request.identity
         || matching[0].page.start != (if request.cursor.None? || request.cursor.value == "" then "0" else request.cursor.value) {
        return None;
      }
      AnsweredNext(requests, found, log, matching[0]);
      found := found + [matching[0]];
      cursor := matching[0].page.next;
    }
    return Some(found);
  }

  lemma CursorIs(requests: seq<Request>, r: seq<Reply>, log: seq<Reply>, complete: bool, index: nat, found: seq<Reply>)
    requires index < |requests| && |found| == index && (IsExchange(requests, r, log, complete) ==> found <= r)
    ensures IsExchange(requests, r, log, complete) ==> Continues(requests, found, index)
  {
    assert IsExchange(requests, r, log, complete) ==> Continues(requests, r, index);
  }

  lemma Unanswered(requests: seq<Request>, r: seq<Reply>, log: seq<Reply>, complete: bool, index: nat, matching: seq<Reply>)
    requires index < |requests| && IsExchange(requests, r, log, complete) && matching == RepliesTo(log, requests[index].id)
    ensures (matching == [] && !complete && index + 1 == |requests|) || (|matching| == 1 && Answers(requests[index], matching[0], log))
  {
    if index < |r| {
      assert Answers(requests[index], r[index], log);
    }
  }

  lemma NextReply(requests: seq<Request>, r: seq<Reply>, log: seq<Reply>, complete: bool, index: nat, matching: seq<Reply>, found: seq<Reply>)
    requires index < |requests| && IsExchange(requests, r, log, complete) && matching == RepliesTo(log, requests[index].id)
    requires |matching| == 1 && |found| == index && found <= r
    ensures found + [matching[0]] <= r
  {
    if index < |r| {
      assert Answers(requests[index], r[index], log);
    }
  }

  /** `stream`: the one transfer that may be published for the last initial request, and an error when there is none. */
  method Stream(requests: seq<Request>, log: seq<Reply>, requested: Identity, id: Option<string>, complete: bool)
      returns (transfer: Option<Transfer>)
    ensures transfer.Some? ==> IsPublished(transfer.value, log, requested, complete)
    ensures transfer.Some? ==> exists start: nat, end: nat ::
              IsSelected(Candidates(requests, requested), id, start, end) && transfer.value.queries == Candidates(requests, requested)[start..end]
    ensures transfer.None? ==> forall t: Transfer, start: nat, end: nat ::
              IsSelected(Candidates(requests, requested), id, start, end) && t.queries == Candidates(requests, requested)[start..end]
              ==> !IsPublished(t, log, requested, complete)
  {
    var candidates := Candidates(requests, requested);
    var run := FindRun(candidates, id);
    if run.None? {
      return None;
    }
    var queries := candidates[run.value.0..run.value.1];
    forall start: nat, end: nat | IsSelected(candidates, id, start, end)
      ensures candidates[start..end] == queries
    {
      OneRun(candidates, id, start, end, run.value.0, run.value.1);
    }
    transfer := Publish(queries, log, requested, complete);
  }

  lemma OneRun(candidates: seq<Request>, id: Option<string>, start: nat, end: nat, start': nat, end': nat)
    requires IsSelected(candidates, id, start, end) && IsSelected(candidates, id, start', end')
    ensures start == start' && end == end'
  {
  }

  /** The part of `stream` after the requests of the transfer are known. */
  method Publish(queries: seq<Request>, log: seq<Reply>, requested: Identity, complete: bool) returns (transfer: Option<Transfer>)
    requires queries != []
    ensures transfer.Some? ==> transfer.value.queries == queries && IsPublished(transfer.value, log, requested, complete)
    ensures transfer.None? ==> forall t: Transfer :: t.queries == queries ==> !IsPublished(t, log, requested, complete)
  {
    if !DistinctIds(queries) {
      return None;
    }
    var replies := CollectReplies(queries, log, complete);
    if replies.None? {
      return None;
    }
    forall t: Transfer | t.queries == queries && IsExchange(queries, t.replies, log, complete)
      ensures t.replies == replies.value
    {
      OneExchange(queries, t.replies, replies.value, log, complete);
    }
    if OrderIn(log, Selected(queries)) != IdsOf(replies.value) {
      return None;
    }
    if complete {
      var records := ValidatePages(PagesOf(replies.value), requested);
      if records.None? {
        return None;
      }
    }
    return Some(Transfer(queries, replies.value));
  }

  lemma OneExchange(requests: seq<Request>, r: seq<Reply>, q: seq<Reply>, log: seq<Reply>, complete: bool)
    requires IsExchange(requests, r, log, complete) && IsExchange(requests, q, log, complete)
    ensures r == q
  {
    forall i | 0 <= i < |r| && i < |q|
      ensures r[i] == q[i]
    {
      assert Answers(requests[i], r[i], log) && Answers(requests[i], q[i], log);
    }
  }
}

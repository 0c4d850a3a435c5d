/** The bounded window of recently seen Webex event ids (wxcd-worker/src/main.rs, `remember_event` and kin). */
module Dedupe {
  const RECENT_EVENT_ID_LIMIT := 1024

  ghost predicate Window(queue: seq<string>) {
    && |queue| <= RECENT_EVENT_ID_LIMIT
    && (forall i, j :: 0 <= i < j < |queue| ==> queue[i] != queue[j])
  }

  function Remember(queue: seq<string>, id: string): seq<string> {
    if id in queue then queue
    else if |queue| >= RECENT_EVENT_ID_LIMIT then queue[1..] + [id]
    else queue + [id]
  }

  /** `retain(|queued| queued != id)`. */
  function Without(queue: seq<string>, id: string): (r: seq<string>)
    ensures forall x :: x in r <==> x in queue && x != id
    ensures |r| <= |queue|
  {
    if queue == [] then []
    else if queue[|queue| - 1] == id then Without(queue[..|queue| - 1], id)
    else Without(queue[..|queue| - 1], id) + [queue[|queue| - 1]]
  }

  predicate IsWhitespace(c: char) {
    || '\t' <= c <= '\r' || c == ' ' || c == '\U{85}' || c == '\U{A0}' || c == '\U{1680}'
    || '\U{2000}' <= c <= '\U{200A}' || c == '\U{2028}' || c == '\U{2029}' || c == '\U{202F}'
    || c == '\U{205F}' || c == '\U{3000}'
  }

  /** `str::trim`. */
  function Trim(s: string): string {
    if s != "" && IsWhitespace(s[0]) then Trim(s[1..])
    else if s != "" && IsWhitespace(s[|s| - 1]) then Trim(s[..|s| - 1])
    else s
  }

  function Merge(queue: seq<string>, ids: seq<string>): seq<string> {
    if ids == [] then queue
    else
      var earlier := Merge(queue, ids[..|ids| - 1]);
      var id := Trim(ids[|ids| - 1]);
      if id == "" then earlier else Remember(earlier, id)
  }

  predicate AllWhitespace(s: string) {
    forall c :: c in s ==> IsWhitespace(c)
  }

  /** Trimming cuts whitespace off both ends, all of it, and nothing else. */
  lemma {:induction false} TrimCutsEnds(s: string) returns (before: string, after: string)
    ensures s == before + Trim(s) + after && AllWhitespace(before) && AllWhitespace(after)
    ensures Trim(s) != "" ==> !IsWhitespace(Trim(s)[0]) && !IsWhitespace(Trim(s)[|Trim(s)| - 1])
  {
    if s != "" && IsWhitespace(s[0]) {
      before, after := TrimCutsEnds(s[1..]);
      before := [s[0]] + before;
    } else if s != "" && IsWhitespace(s[|s| - 1]) {
      before, after := TrimCutsEnds(s[..|s| - 1]);
      after := after + [s[|s| - 1]];
    } else {
      before, after := "", "";
    }
  }

  /** So exactly the strings without whitespace at either end are their own trimming, be it one of six in ASCII. */
  lemma TrimmedExactly(s: string)
    ensures Trim(s) == s <==> s == "" || (!IsWhitespace(s[0]) && !IsWhitespace(s[|s| - 1]))
    ensures Trim(s) == "" <==> AllWhitespace(s)
    ensures forall c: char :: c < '\U{80}' ==>
              (IsWhitespace(c) <==> c in {' ', '\t', '\n', '\U{0B}', '\U{0C}', '\r'})
  {
    var before, after := TrimCutsEnds(s);
    if Trim(s) != "" {
      assert Trim(s)[0] == s[|before|];
    }
  }

  lemma RememberKeepsWindow(queue: seq<string>, id: string)
    requires Window(queue)
    ensures Window(Remember(queue, id)) && id in Remember(queue, id)
  {
    assert Remember(queue, id)[|Remember(queue, id)| - 1] == id || id in queue;
  }

  lemma {:induction false} WithoutKeepsWindow(queue: seq<string>, id: string)
    requires Window(queue)
    ensures Window(Without(queue, id))
  {
    if queue != [] {
      var init, last := queue[..|queue| - 1], queue[|queue| - 1];
      WithoutKeepsWindow(init, id);
      var kept := Without(init, id);
      assert last !in init;
      forall i | 0 <= i < |kept| ensures kept[i] != last {
        assert kept[i] in init;
      }
    }
  }

  lemma {:induction false} WithoutAbsent(queue: seq<string>, id: string)
    requires id !in queue
    ensures Without(queue, id) == queue
  {
    if queue != [] {
      WithoutAbsent(queue[..|queue| - 1], id);
    }
  }

  lemma {:induction false} MergeKeepsWindow(queue: seq<string>, ids: seq<string>)
    requires Window(queue)
    ensures Window(Merge(queue, ids))
  {
    if ids != [] {
      MergeKeepsWindow(queue, ids[..|ids| - 1]);
      var id := Trim(ids[|ids| - 1]);
      if id != "" {
        RememberKeepsWindow(Merge(queue, ids[..|ids| - 1]), id);
      }
    }
  }

  /** A window merged into an empty one is reproduced in order. */
  lemma {:induction false} MergeIntoEmpty(queue: seq<string>)
    requires Window(queue)
    requires forall id :: id in queue ==> Trim(id) == id && id != ""
    ensures Merge([], queue) == queue
  {
    if queue != [] {
      var init, last := queue[..|queue| - 1], queue[|queue| - 1];
      forall id | id in init ensures Trim(id) == id && id != "" {
        assert id in queue;
      }
      MergeIntoEmpty(init);
      assert last in queue && last !in init;
      assert init + [last] == queue;
    }
  }

  // ---- How long an id stays rejected ----

  datatype Op = RememberOp(id: string) | ForgetOp(id: string) | MergeOp(ids: seq<string>)

  function Apply(queue: seq<string>, op: Op): seq<string> {
    match op
    case RememberOp(id) => Remember(queue, id)
    case ForgetOp(id) => Without(queue, id)
    case MergeOp(ids) => Merge(queue, ids)
  }

  function Run(queue: seq<string>, ops: seq<Op>): seq<string> {
    if ops == [] then queue else Apply(Run(queue, ops[..|ops| - 1]), ops[|ops| - 1])
  }

  function FreshInMerge(queue: seq<string>, ids: seq<string>): nat {
    if ids == [] then 0
    else
      var id := Trim(ids[|ids| - 1]);
      FreshInMerge(queue, ids[..|ids| - 1])
      + if id != "" && id !in Merge(queue, ids[..|ids| - 1]) then 1 else 0
  }

  function FreshIn(queue: seq<string>, op: Op): nat {
    match op
    case RememberOp(id) => if id in queue then 0 else 1
    case ForgetOp(_) => 0
    case MergeOp(ids) => FreshInMerge(queue, ids)
  }

  /** How many ids a run accepts as fresh (`remember_event` returning true). */
  function Fresh(queue: seq<string>, ops: seq<Op>): nat {
    if ops == [] then 0
    else Fresh(queue, ops[..|ops| - 1]) + FreshIn(Run(queue, ops[..|ops| - 1]), ops[|ops| - 1])
  }

  lemma {:induction false} RunKeepsWindow(queue: seq<string>, ops: seq<Op>)
    requires Window(queue)
    ensures Window(Run(queue, ops)) && |Run(queue, ops)| <= 1024
  {
    if ops != [] {
      RunKeepsWindow(queue, ops[..|ops| - 1]);
      var before := Run(queue, ops[..|ops| - 1]);
      match ops[|ops| - 1]
      case RememberOp(id) => RememberKeepsWindow(before, id);
      case ForgetOp(id) => WithoutKeepsWindow(before, id);
      case MergeOp(ids) => MergeKeepsWindow(before, ids);
    }
  }

  /** `id` is in the queue and at most `n` ids are queued behind it. */
  ghost predicate Within(queue: seq<string>, id: string, n: nat) {
    exists i :: 0 <= i < |queue| && queue[i] == id && |queue| - 1 - i <= n
  }

  lemma RememberWithin(queue: seq<string>, x: string, id: string, n: nat)
    requires Window(queue) && Within(queue, x, n)
    requires id in queue || n + 1 < RECENT_EVENT_ID_LIMIT
    ensures Within(Remember(queue, id), x, if id in queue then n else n + 1)
  {
    var i :| 0 <= i < |queue| && queue[i] == x && |queue| - 1 - i <= n;
    var r := Remember(queue, id);
    assert id !in queue && |queue| >= RECENT_EVENT_ID_LIMIT ==> i > 0 && r[i - 1] == x;
    assert id !in queue && |queue| < RECENT_EVENT_ID_LIMIT ==> r[i] == x;
  }

  lemma {:induction false} WithoutWithin(queue: seq<string>, x: string, id: string, n: nat)
    requires Within(queue, x, n) && x != id
    ensures Within(Without(queue, id), x, n)
  {
    var i :| 0 <= i < |queue| && queue[i] == x && |queue| - 1 - i <= n;
    var init, r := queue[..|queue| - 1], Without(queue, id);
    if i == |queue| - 1 {
      assert r[|r| - 1] == x;
    } else {
      assert init[i] == x;
      WithoutWithin(init, x, id, n - 1);
      var j :| 0 <= j < |Without(init, id)| && Without(init, id)[j] == x && |Without(init, id)| - 1 - j <= n - 1;
      assert r[j] == x;
    }
  }

  lemma {:induction false} MergeWithin(queue: seq<string>, x: string, ids: seq<string>, n: nat)
    requires Window(queue) && Within(queue, x, n)
    requires n + FreshInMerge(queue, ids) < RECENT_EVENT_ID_LIMIT
    ensures Within(Merge(queue, ids), x, n + FreshInMerge(queue, ids))
  {
    if ids != [] {
      var init := ids[..|ids| - 1];
      MergeKeepsWindow(queue, init);
      MergeWithin(queue, x, init, n);
      var id := Trim(ids[|ids| - 1]);
      if id != "" {
        RememberWithin(Merge(queue, init), x, id, n + FreshInMerge(queue, init));
      }
    }
  }

  /**
   A remembered id keeps being rejected through any run that neither forgets it nor accepts
   `RECENT_EVENT_ID_LIMIT` fresh ids.
   */
  lemma {:induction false} RejectedUntilForgottenOrAged(queue: seq<string>, x: string, ops: seq<Op>)
    requires Window(queue)
    requires ForgetOp(x) !in ops
    requires Fresh(Remember(queue, x), ops) < 1024
    requires x !in queue
    ensures x in Run(Remember(queue, x), ops)
    ensures Within(Run(Remember(queue, x), ops), x, Fresh(Remember(queue, x), ops))
  {
    var start := Remember(queue, x);
    RememberKeepsWindow(queue, x);
    if ops == [] {
      assert start[|start| - 1] == x;
    } else {
      var init, op := ops[..|ops| - 1], ops[|ops| - 1];
      RejectedUntilForgottenOrAged(queue, x, init);
      RunKeepsWindow(start, init);
      var before, n := Run(start, init), Fresh(start, init);
      match op
      case RememberOp(id) => RememberWithin(before, x, id, n);
      case ForgetOp(id) => assert op in ops; WithoutWithin(before, x, id, n);
      case MergeOp(ids) => MergeWithin(before, x, ids, n);
    }
  }

  function Remembers(ids: seq<string>): seq<Op> {
    if ids == [] then [] else Remembers(ids[..|ids| - 1]) + [RememberOp(ids[|ids| - 1])]
  }

  function Newest(queue: seq<string>): seq<string> {
    if |queue| > RECENT_EVENT_ID_LIMIT then queue[|queue| - RECENT_EVENT_ID_LIMIT..] else queue
  }

  lemma RememberNewest(queue: seq<string>, id: string)
    requires id !in Newest(queue)
    ensures Remember(Newest(queue), id) == Newest(queue + [id])
  {
  }

  /** None of `ids` is in the queue or among the ids before it. */
  predicate AllFresh(queue: seq<string>, ids: seq<string>) {
    ids == [] || (AllFresh(queue, ids[..|ids| - 1]) && ids[|ids| - 1] !in queue + ids[..|ids| - 1])
  }

  lemma RunOneMore(queue: seq<string>, ops: seq<Op>, op: Op)
    ensures Run(queue, ops + [op]) == Apply(Run(queue, ops), op)
  {
    assert (ops + [op])[..|ops + [op]| - 1] == ops;
  }

  lemma FreshLast(queue: seq<string>, init: seq<string>, last: string)
    requires AllFresh(queue, init + [last])
    ensures AllFresh(queue, init) && last !in Newest(queue + init)
  {
    assert (init + [last])[..|init + [last]| - 1] == init;
  }

  lemma RemembersLast(init: seq<string>, last: string)
    ensures Remembers(init + [last]) == Remembers(init) + [RememberOp(last)]
  {
    assert (init + [last])[..|init + [last]| - 1] == init;
  }

  lemma {:induction false} FreshRun(queue: seq<string>, ids: seq<string>)
    requires Window(queue) && AllFresh(queue, ids)
    ensures Run(queue, Remembers(ids)) == Newest(queue + ids)
  {
    if ids == [] {
      assert queue + ids == queue;
    } else {
      var init, last := ids[..|ids| - 1], ids[|ids| - 1];
      assert ids == init + [last];
      FreshLast(queue, init, last);
      RemembersLast(init, last);
      FreshRun(queue, init);
      FreshRunStep(queue, init, last);
    }
  }

  lemma FreshRunStep(queue: seq<string>, init: seq<string>, last: string)
    requires Run(queue, Remembers(init)) == Newest(queue + init) && last !in Newest(queue + init)
    ensures Run(queue, Remembers(init) + [RememberOp(last)]) == Newest(queue + (init + [last]))
  {
    RunOneMore(queue, Remembers(init), RememberOp(last));
    RememberNewest(queue + init, last);
    assert queue + init + [last] == queue + (init + [last]);
  }

  lemma {:induction false} FreshNotIn(queue: seq<string>, ids: seq<string>, x: string)
    requires AllFresh(queue, ids) && x in queue
    ensures x !in ids
  {
    if ids != [] {
      FreshNotIn(queue, ids[..|ids| - 1], x);
    }
  }

  /** And no longer: `RECENT_EVENT_ID_LIMIT` fresh ids in a row push out all that was there before them. */
  lemma AgedOut(queue: seq<string>, ids: seq<string>)
    requires Window(queue) && AllFresh(queue, ids) && |ids| >= 1024
    ensures forall x :: x in queue ==> x !in Run(queue, Remembers(ids))
  {
    FreshRun(queue, ids);
    assert Newest(queue + ids) == ids[|ids| - RECENT_EVENT_ID_LIMIT..];
    forall x | x in queue ensures x !in ids {
      FreshNotIn(queue, ids, x);
    }
  }
}

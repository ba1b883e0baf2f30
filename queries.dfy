/**
 * The read-only handlers of the in-memory store: listing with filters and a
 * limit, the statistics counts, and keyword search. Each is a function of the
 * stored sequence, so none of them can change the store.
 */
module Queries {
  import opened Wrappers
  import opened Text
  import opened Todos

  /** `[t for t in s if t["completed"] == c]`. */
  function WithCompleted(s: seq<Todo>, c: bool): (r: seq<Todo>)
    ensures |r| <= |s|
    ensures forall i :: 0 <= i < |r| ==> r[i] in s && r[i].completed == c
  {
    if s == [] then []
    else if s[0].completed == c then [s[0]] + WithCompleted(s[1..], c)
    else WithCompleted(s[1..], c)
  }

  /** `[t for t in s if t["priority"] == p]`. */
  function WithPriority(s: seq<Todo>, p: string): (r: seq<Todo>)
    ensures |r| <= |s|
    ensures forall i :: 0 <= i < |r| ==> r[i] in s && r[i].priority == p
  {
    if s == [] then []
    else if s[0].priority == p then [s[0]] + WithPriority(s[1..], p)
    else WithPriority(s[1..], p)
  }

  /** The priority filter applies only when it is given and non-empty (`if priority:`). */
  predicate PriorityFilterOn(priority: Option<string>) {
    priority.Some? && priority.value != ""
  }

  /** Whether a record passes both list filters. */
  predicate Matches(t: Todo, completed: Option<bool>, priority: Option<string>) {
    (completed.None? || t.completed == completed.value)
    && (!PriorityFilterOn(priority) || t.priority == priority.value)
  }

  /** Reference definition: one pass keeping, in order, the records that pass both filters. */
  function Matching(s: seq<Todo>, completed: Option<bool>, priority: Option<string>): (r: seq<Todo>)
  {
    if s == [] then []
    else if Matches(s[0], completed, priority) then [s[0]] + Matching(s[1..], completed, priority)
    else Matching(s[1..], completed, priority)
  }

  /** `Matching` keeps exactly the matching records of the store. */
  lemma {:induction false} MatchingMembers(s: seq<Todo>, completed: Option<bool>, priority: Option<string>, t: Todo)
    ensures t in Matching(s, completed, priority) <==> t in s && Matches(t, completed, priority)
  {
    if s != [] {
      MatchingMembers(s[1..], completed, priority, t);
      assert s == [s[0]] + s[1..];
    }
  }

  /** The two passes of the handler, completed then priority, equal one pass with both filters. */
  lemma {:induction false} TwoPassesAreOne(s: seq<Todo>, completed: Option<bool>, priority: Option<string>)
    ensures Filtered(s, completed, priority) == Matching(s, completed, priority)
  {
    if s != [] {
      TwoPassesAreOne(s[1..], completed, priority);
    }
  }

  /** The records the list handler filters to, before the limit. */
  function Filtered(s: seq<Todo>, completed: Option<bool>, priority: Option<string>): (r: seq<Todo>)
    ensures |r| <= |s|
    ensures forall i :: 0 <= i < |r| ==> r[i] in s && Matches(r[i], completed, priority)
  {
    var a := if completed.Some? then WithCompleted(s, completed.value) else s;
    if PriorityFilterOn(priority) then WithPriority(a, priority.value) else a
  }

  /** The response of `GET /api/todos`: `total` and the (truncated) records. */
  datatype Listing = Listing(total: nat, todos: seq<Todo>)

  /** The `limit` the handler uses when the query gives none. */
  const DefaultLimit: nat := 100

  function Min(a: nat, b: nat): nat {
    if a <= b then a else b
  }

  /**
   * The list handler: `total` counts every match, `todos` is the first
   * `limit` of them in store order.
   */
  function List(s: seq<Todo>, completed: Option<bool>, priority: Option<string>, limit: nat := DefaultLimit): (r: Listing)
    ensures r.total == |Matching(s, completed, priority)|
    ensures |r.todos| == Min(limit, r.total)
    ensures r.todos == Matching(s, completed, priority)[..|r.todos|]
    ensures forall i :: 0 <= i < |r.todos| ==> r.todos[i] in s && Matches(r.todos[i], completed, priority)
  {
    var b := Filtered(s, completed, priority);
    TwoPassesAreOne(s, completed, priority);
    var r := Listing(|b|, b[..Min(limit, |b|)]);
    assert forall i :: 0 <= i < |r.todos| ==> r.todos[i] in b by {
      forall i | 0 <= i < |r.todos| ensures r.todos[i] in b {
        assert r.todos[i] == b[i];
      }
    }
    forall t | t in b ensures t in s && Matches(t, completed, priority) {
      MatchingMembers(s, completed, priority, t);
    }
    r
  }

  /** A request without `limit` lists at most the first 100 matches. */
  lemma ListDefaultLimit(s: seq<Todo>, completed: Option<bool>, priority: Option<string>)
    ensures List(s, completed, priority) == List(s, completed, priority, 100)
    ensures |List(s, completed, priority).todos| <= 100
  {
  }

  /** An empty priority string filters nothing: the listing is the same as with no priority given. */
  lemma EmptyPriorityIgnored(s: seq<Todo>, completed: Option<bool>, limit: nat)
    ensures List(s, completed, Some(""), limit) == List(s, completed, None, limit)
  {
  }

  /** Without filters and with a large enough limit, listing returns the whole store. */
  lemma {:induction false} ListAll(s: seq<Todo>, limit: nat)
    requires limit >= |s|
    ensures List(s, None, None, limit) == Listing(|s|, s)
  {
    MatchingAll(s);
  }

  lemma {:induction false} MatchingAll(s: seq<Todo>)
    ensures Matching(s, None, None) == s
  {
    if s != [] {
      MatchingAll(s[1..]);
    }
  }

  /** The response of `GET /api/stats`. */
  datatype Stats = Stats(total: nat, completed: nat, pending: int, high: nat, medium: nat, low: nat)

  /** The stats handler: lengths of the filtered copies of the store. */
  function GetStats(s: seq<Todo>): (r: Stats)
    ensures r.total == |s|
    ensures r.completed <= r.total && r.pending == r.total - r.completed && r.pending >= 0
    ensures r.high + r.medium + r.low <= r.total
  {
    PriorityCountsBounded(s);
    var completed := |WithCompleted(s, true)|;
    Stats(|s|, completed, |s| - completed,
          |WithPriority(s, "high")|, |WithPriority(s, "medium")|, |WithPriority(s, "low")|)
  }

  /** A record has at most one of the three known priorities, so their counts add up to at most the total. */
  lemma {:induction false} PriorityCountsBounded(s: seq<Todo>)
    ensures |WithPriority(s, "high")| + |WithPriority(s, "medium")| + |WithPriority(s, "low")| <= |s|
  {
    if s != [] {
      PriorityCountsBounded(s[1..]);
    }
  }

  /** The stats counts agree with the totals the list handler reports for the same filters. */
  lemma {:induction false} StatsAgreeWithList(s: seq<Todo>)
    ensures GetStats(s).completed == List(s, Some(true), None, 0).total
    ensures GetStats(s).pending == List(s, Some(false), None, 0).total
    ensures GetStats(s).high == List(s, None, Some("high"), 0).total
    ensures GetStats(s).medium == List(s, None, Some("medium"), 0).total
    ensures GetStats(s).low == List(s, None, Some("low"), 0).total
  {
    CompletedSplit(s);
    TwoPassesAreOne(s, Some(true), None);
    TwoPassesAreOne(s, Some(false), None);
    TwoPassesAreOne(s, None, Some("high"));
    TwoPassesAreOne(s, None, Some("medium"));
    TwoPassesAreOne(s, None, Some("low"));
  }

  /** Every record is either completed or pending. */
  lemma {:induction false} CompletedSplit(s: seq<Todo>)
    ensures |WithCompleted(s, true)| + |WithCompleted(s, false)| == |s|
  {
    if s != [] {
      CompletedSplit(s[1..]);
    }
  }

  /** The outcome of the search handler: the matches, or the error raised by `None.lower()`. */
  datatype SearchOutcome = Results(todos: seq<Todo>) | Crashed

  /** The keyword occurs, ignoring case, in the title. */
  predicate TitleHit(t: Todo, keyword: string) {
    Contains(Lower(t.title), Lower(keyword))
  }

  /** The keyword occurs, ignoring case, in the title or in a present description. */
  predicate Hit(t: Todo, keyword: string) {
    TitleHit(t, keyword)
    || (t.description.Some? && Contains(Lower(t.description.value), Lower(keyword)))
  }

  /**
   * The search handler. The description is read only when the title misses,
   * and reading a missing (None) description raises.
   */
  function Search(s: seq<Todo>, keyword: string): (r: SearchOutcome)
    ensures r.Crashed? <==> exists i :: 0 <= i < |s| && !TitleHit(s[i], keyword) && s[i].description.None?
    ensures r.Results? ==> |r.todos| <= |s|
    ensures r.Results? ==> forall i :: 0 <= i < |r.todos| ==> r.todos[i] in s && Hit(r.todos[i], keyword)
  {
    if s == [] then Results([])
    else
      var rest := Search(s[1..], keyword);
      assert forall i :: 1 <= i < |s| ==> s[i] == s[1..][i - 1];
      if !TitleHit(s[0], keyword) && s[0].description.None? then Crashed
      else if rest.Crashed? then Crashed
      else if Hit(s[0], keyword) then Results([s[0]] + rest.todos)
      else rest
  }

  /** Reference definition: the records that match the keyword, in store order. */
  function Hits(s: seq<Todo>, keyword: string): seq<Todo> {
    if s == [] then []
    else if Hit(s[0], keyword) then [s[0]] + Hits(s[1..], keyword)
    else Hits(s[1..], keyword)
  }

  /** When search succeeds its results are the matching records in store order. */
  lemma {:induction false} SearchInStoreOrder(s: seq<Todo>, keyword: string)
    requires Search(s, keyword).Results?
    ensures Search(s, keyword).todos == Hits(s, keyword)
  {
    if s != [] {
      SearchInStoreOrder(s[1..], keyword);
    }
  }

  /** When search succeeds it misses no matching record. */
  lemma {:induction false} SearchComplete(s: seq<Todo>, keyword: string, t: Todo)
    requires Search(s, keyword).Results?
    requires t in s && Hit(t, keyword)
    ensures t in Search(s, keyword).todos
  {
    if s[0] != t {
      SearchComplete(s[1..], keyword, t);
    }
  }

  /** The empty keyword matches every title, so search returns the whole store. */
  lemma {:induction false} SearchEmptyKeyword(s: seq<Todo>)
    ensures Search(s, "") == Results(s)
  {
    if s != [] {
      ContainsEmpty(Lower(s[0].title));
      SearchEmptyKeyword(s[1..]);
    }
  }
}

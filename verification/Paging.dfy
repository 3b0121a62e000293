/**
 Paged channel history: one page from one or two REST answers, and the cursor handed from page to page.

 Message ids are numbers.  A channel is the ascending sequence of its ids; it only grows, and only at the end.
 */
module Paging {
  import opened Text

  type Id = nat

  predicate Ascending(s: seq<Id>) {
    forall i, j | 0 <= i < j < |s| :: s[i] < s[j]
  }

  // ---------------------------------------------------------------- one page

  function Insert(s: seq<Id>, x: Id): (r: seq<Id>)
    ensures |r| == |s| + 1
    ensures forall y :: y in r <==> y == x || y in s
  {
    if s == [] || x <= s[0] then [x] + s else [s[0]] + Insert(s[1..], x)
  }

  /** `sorted` by id. */
  function Sort(s: seq<Id>): (r: seq<Id>)
    ensures |r| == |s|
    ensures forall y :: y in r <==> y in s
  {
    if s == [] then [] else Insert(Sort(s[1..]), s[0])
  }

  predicate Distinct(s: seq<Id>) {
    forall i, j | 0 <= i < j < |s| :: s[i] != s[j]
  }

  datatype HistoryError = InvalidInput | Unavailable | InvalidCursor | ScopeMismatch

  datatype Page = Page(messages: seq<Id>, hasMore: bool)

  const MAX_LIMIT := 100

  /** The row limit of the request: one more than asked for, up to the service's maximum, when there is a cursor. */
  function FetchLimit(after: Option<Id>, limit: nat): nat {
    if after.Some? then (if limit + 1 < MAX_LIMIT then limit + 1 else MAX_LIMIT) else limit
  }

  /** Is the one-row probe after the page needed? */
  predicate NeedsProbe(after: Option<Id>, limit: nat) {
    after.None? || limit == MAX_LIMIT
  }

  /** `read_page`, from the answer to the fetch and the answer to the probe. */
  method ReadPage(after: Option<Id>, limit: nat, answer: seq<Id>, probe: seq<Id>)
    returns (r: Result<Page, HistoryError>)
    ensures r == PageOf(after, limit, answer, probe)
  {
    if !(1 <= limit <= MAX_LIMIT) {
      return Err(InvalidInput);
    }
    var rows := Sort(answer);
    if !Distinct(answer) || |rows| > FetchLimit(after, limit) {
      return Err(Unavailable);
    }
    if after.Some? && exists i :: 0 <= i < |rows| && rows[i] <= after.value {
      return Err(Unavailable);
    }
    var hasMore := after.Some? && |rows| > limit;
    if |rows| > limit {
      rows := rows[..limit];
    }
    if rows != [] && NeedsProbe(after, limit) {
      if |probe| > 1 || exists i :: 0 <= i < |probe| && probe[i] <= rows[|rows| - 1] {
        return Err(Unavailable);
      }
      hasMore := probe != [];
    }
    return Ok(Page(rows, hasMore));
  }

  function Cut(rows: seq<Id>, limit: nat): seq<Id> {
    if |rows| > limit then rows[..limit] else rows
  }

  predicate AllAbove(rows: seq<Id>, after: Id) {
    forall i | 0 <= i < |rows| :: rows[i] > after
  }

  function PageOf(after: Option<Id>, limit: nat, answer: seq<Id>, probe: seq<Id>): Result<Page, HistoryError> {
    var rows := Sort(answer);
    var cut := Cut(rows, limit);
    if !(1 <= limit <= MAX_LIMIT) then Err(InvalidInput)
    else if !Distinct(answer) || |rows| > FetchLimit(after, limit)
      || (after.Some? && !AllAbove(rows, after.value)) then Err(Unavailable)
    else if cut == [] || !NeedsProbe(after, limit) then Ok(Page(cut, after.Some? && |rows| > limit))
    else if |probe| > 1 || !AllAbove(probe, cut[|cut| - 1]) then Err(Unavailable)
    else Ok(Page(cut, probe != []))
  }

  // ---------------------------------------------------------------- what the service answers

  /** The ids of a channel above a cursor. */
  function Above(channel: seq<Id>, after: Id): (r: seq<Id>)
    ensures forall x :: x in r <==> x in channel && x > after
  {
    if channel == [] then [] else
      var init, last := channel[..|channel| - 1], channel[|channel| - 1];
      assert channel == init + [last];
      Above(init, after) + if last > after then [last] else []
  }

  /** The newest ids of a channel. */
  function Newest(channel: seq<Id>, limit: nat): seq<Id> {
    if |channel| > limit then channel[|channel| - limit..] else channel
  }

  ghost predicate SameIds(a: seq<Id>, b: seq<Id>) {
    Distinct(a) && forall x :: x in a <==> x in b
  }

  /** In any order: the smallest ids above the cursor, up to the limit; without a cursor, the latest ids. */
  ghost predicate Honest(channel: seq<Id>, after: Option<Id>, limit: nat, answer: seq<Id>) {
    SameIds(answer, if after.Some? then Cut(Above(channel, after.value), limit) else Newest(channel, limit))
  }

  // ---------------------------------------------------------------- a page is exact

  lemma {:induction false} InsertAscends(s: seq<Id>, x: Id)
    requires Ascending(s) && x !in s
    ensures Ascending(Insert(s, x))
  {
    if s != [] && x > s[0] {
      InsertAscends(s[1..], x);
      var rest := Insert(s[1..], x);
      forall i | 0 <= i < |rest| ensures rest[i] > s[0] {
        assert rest[i] in rest;
        if rest[i] in s[1..] {
          var k :| 0 <= k < |s[1..]| && s[1..][k] == rest[i];
        }
      }
    }
  }

  lemma {:induction false} SortAscends(s: seq<Id>)
    requires Distinct(s)
    ensures Ascending(Sort(s))
  {
    if s != [] {
      assert Distinct(s[1..]);
      SortAscends(s[1..]);
      assert s[0] !in s[1..] by {
        forall k | 0 <= k < |s[1..]| ensures s[1..][k] != s[0] {
          assert s[1..][k] == s[k + 1];
        }
      }
      InsertAscends(Sort(s[1..]), s[0]);
    }
  }

  lemma EmptyHasNone(s: seq<Id>)
    ensures s == [] <==> forall x :: x !in s
  {
    if s != [] {
      assert s[0] in s;
    }
  }

  /** All but the last: the ids below it. */
  lemma InitMembers(s: seq<Id>)
    requires Ascending(s) && s != []
    ensures Ascending(s[..|s| - 1]) && forall z :: z in s[..|s| - 1] <==> z in s && z != s[|s| - 1]
  {
    var init, last := s[..|s| - 1], s[|s| - 1];
    assert s == init + [last];
    NotLast(init, last);
  }

  lemma SameLast(a: seq<Id>, b: seq<Id>)
    requires Ascending(a) && Ascending(b) && a != [] && forall x :: x in a <==> x in b
    ensures b != [] && a[|a| - 1] == b[|b| - 1]
  {
    assert a[|a| - 1] in a;
    EmptyHasNone(b);
    assert b[|b| - 1] in b;
    LastIsGreatest(a, b[|b| - 1]);
    LastIsGreatest(b, a[|a| - 1]);
  }

  /** Ascending sequences of the same ids are the same. */
  lemma {:induction false} AscendingUnique(a: seq<Id>, b: seq<Id>)
    requires Ascending(a) && Ascending(b) && forall x :: x in a <==> x in b
    ensures a == b
  {
    hide Ascending;
    if a == [] {
      EmptyHasNone(b);
    } else {
      SameLast(a, b);
      InitMembers(a);
      InitMembers(b);
      var c, d := a[..|a| - 1], b[..|b| - 1];
      forall z ensures z in c <==> z in d {
        assert z in a <==> z in b;
      }
      AscendingUnique(c, d);
      assert a == c + [a[|a| - 1]] && b == d + [b[|b| - 1]];
    }
  }

  lemma LastIsGreatest(s: seq<Id>, x: Id)
    requires Ascending(s) && x in s
    ensures x <= s[|s| - 1]
  {
  }

  lemma NotLast(init: seq<Id>, last: Id)
    requires Ascending(init + [last])
    ensures last !in init && forall x | x in init :: x < last
  {
    forall i | 0 <= i < |init| ensures init[i] < last {
      assert (init + [last])[i] < (init + [last])[|init|];
    }
  }

  lemma {:induction false} AboveAscends(channel: seq<Id>, after: Id)
    requires Ascending(channel)
    ensures Ascending(Above(channel, after))
  {
    if channel != [] {
      var init, last := channel[..|channel| - 1], channel[|channel| - 1];
      assert channel == init + [last];
      AboveAscends(init, after);
      NotLast(init, last);
      var rest := Above(init, after);
      forall i | 0 <= i < |rest| ensures rest[i] < last {
        assert rest[i] in rest;
      }
    }
  }

  /** An honest answer, sorted, is the answer in channel order. */
  lemma SortedAnswer(answer: seq<Id>, ids: seq<Id>)
    requires SameIds(answer, ids) && Ascending(ids)
    ensures Sort(answer) == ids
  {
    SortAscends(answer);
    AscendingUnique(Sort(answer), ids);
  }

  /** Does the channel hold an id above this one? */
  predicate Continues(channel: seq<Id>, id: Id) {
    exists x :: x in channel && x > id
  }

  lemma CutGoesOn(s: seq<Id>, limit: nat)
    requires Ascending(s) && 0 < limit && s != []
    ensures var cut := Cut(s, limit);
            && cut != [] && Ascending(cut) && (forall x :: x in cut <==> x in s && x <= cut[|cut| - 1])
            && (|s| > limit <==> Continues(s, cut[|cut| - 1]))
  {
    var cut := Cut(s, limit);
    var last := cut[|cut| - 1];
    if |s| > limit {
      assert s[limit] in s && s[limit] > last;
    }
    forall x ensures x in cut <==> x in s && x <= last {
      if x in s {
        var i :| 0 <= i < |s| && s[i] == x;
        if i < |cut| { assert cut[i] == x; }
      }
    }
  }

  /**
   With honest answers a page after a cursor is exactly the next ids in ascending order, and `has_more` says exactly
   whether a later id exists, at the time of the fetch, or of the probe when the limit leaves no room for an extra row.
   */
  lemma PageIsExact(channel: seq<Id>, later: seq<Id>, after: Id, limit: nat, answer: seq<Id>, probe: seq<Id>)
    requires Ascending(channel) && Ascending(later) && channel <= later && 1 <= limit <= MAX_LIMIT
    requires Honest(channel, Some(after), FetchLimit(Some(after), limit), answer)
    requires var cut := Cut(Above(channel, after), limit);
             cut != [] ==> Honest(later, Some(cut[|cut| - 1]), 1, probe)
    ensures PageOf(Some(after), limit, answer, probe).Ok?
    ensures var page := PageOf(Some(after), limit, answer, probe).value;
            && page.messages == Cut(Above(channel, after), limit)
            && page.hasMore == if page.messages == [] then Continues(channel, after)
                               else Continues(if limit == MAX_LIMIT then later
                                              else channel, page.messages[|page.messages| - 1])
  {
    hide Sort, Above, Cut, Honest, Continues;
    var ids := Above(channel, after);
    AboveAscends(channel, after);
    FetchedRows(ids, Some(after), limit, answer, channel);
    RowsAbove(ids, FetchLimit(Some(after), limit), after);
    CutLengths(ids, FetchLimit(Some(after), limit), limit);
    AboveContinues(channel, after);
    if ids != [] {
      CutGoesOn(ids, limit);
      var last := Cut(ids, limit)[|Cut(ids, limit)| - 1];
      ContinuesAbove(channel, after, last);
      ProbeTells(later, last, probe);
    }
  }

  /**
   With honest answers the first page, without a cursor, is exactly the newest ids of the channel in ascending order, as
   many as asked for, and `has_more` says whether a message has come since, by the time of the probe.
   */
  lemma FirstPageIsExact(channel: seq<Id>, later: seq<Id>, limit: nat, answer: seq<Id>, probe: seq<Id>)
    requires Ascending(channel) && Ascending(later) && channel <= later && 1 <= limit <= MAX_LIMIT
    requires Honest(channel, None, FetchLimit(None, limit), answer)
    requires channel != [] ==> Honest(later, Some(channel[|channel| - 1]), 1, probe)
    ensures PageOf(None, limit, answer, probe) ==
              Ok(Page(Newest(channel, limit), channel != [] && Continues(later, channel[|channel| - 1])))
    ensures channel != [] && Continues(later, channel[|channel| - 1]) <==> channel != [] && |later| > |channel|
  {
    hide Sort, Above, Continues;
    var rows := Newest(channel, limit);
    assert Ascending(rows);
    SortedAnswer(answer, rows);
    assert Cut(rows, limit) == rows;
    if channel != [] {
      var last := channel[|channel| - 1];
      assert rows != [] && rows[|rows| - 1] == last;
      ProbeTells(later, last, probe);
      GrownPast(channel, later);
    }
  }

  lemma GrownPast(channel: seq<Id>, later: seq<Id>)
    requires Ascending(later) && channel <= later && channel != []
    ensures Continues(later, channel[|channel| - 1]) <==> |later| > |channel|
  {
    var n := |channel|;
    assert later[n - 1] == channel[n - 1];
    if |later| > n {
      assert later[n] in later && later[n] > later[n - 1];
    } else {
      forall x | x in later ensures x <= channel[n - 1] {
        LastIsGreatest(later, x);
      }
    }
  }

  lemma FetchedRows(ids: seq<Id>, after: Option<Id>, limit: nat, answer: seq<Id>, channel: seq<Id>)
    requires after.Some? && Ascending(ids) && ids == Above(channel, after.value)
    requires Honest(channel, after, FetchLimit(after, limit), answer)
    ensures Distinct(answer) && Sort(answer) == Cut(ids, FetchLimit(after, limit))
  {
    SortedAnswer(answer, Cut(ids, FetchLimit(after, limit)));
  }

  lemma RowsAbove(ids: seq<Id>, most: nat, after: Id)
    requires forall x | x in ids :: x > after
    ensures |Cut(ids, most)| <= most && AllAbove(Cut(ids, most), after)
  {
    forall i | 0 <= i < |Cut(ids, most)| ensures Cut(ids, most)[i] > after {
      assert ids[i] in ids;
    }
  }

  lemma CutLengths(ids: seq<Id>, most: nat, limit: nat)
    requires 0 < limit <= most
    ensures Cut(Cut(ids, most), limit) == Cut(ids, limit)
    ensures (Cut(ids, limit) == [] <==> ids == []) && (limit < most ==> (|Cut(ids, most)| > limit <==> |ids| > limit))
  {
  }

  lemma AboveContinues(channel: seq<Id>, after: Id)
    ensures Continues(channel, after) <==> Above(channel, after) != []
  {
    EmptyHasNone(Above(channel, after));
  }

  lemma ContinuesAbove(channel: seq<Id>, after: Id, last: Id)
    requires last in Above(channel, after)
    ensures Continues(Above(channel, after), last) <==> Continues(channel, last)
  {
  }

  lemma ProbeTells(later: seq<Id>, last: Id, probe: seq<Id>)
    requires Ascending(later) && Honest(later, Some(last), 1, probe)
    ensures |probe| <= 1 && AllAbove(probe, last) && (probe != [] <==> Continues(later, last))
  {
    var ids := Above(later, last);
    AboveAscends(later, last);
    SortedAnswer(probe, Cut(ids, 1));
    forall i | 0 <= i < |probe| ensures probe[i] > last {
      assert probe[i] in probe && probe[i] in Cut(ids, 1);
      assert probe[i] in ids;
    }
    AboveContinues(later, last);
  }

  // ---------------------------------------------------------------- the cursor between pages

  /** One read of a client that follows its cursors: the channel as fetched, as probed, and the answers it got. */
  datatype Reading = Reading(limit: nat, fetched: seq<Id>, probed: seq<Id>, answer: seq<Id>, probe: seq<Id>)

  /** The position and the messages a client has after the first `n` readings from a cursor. */
  function Followed(start: Id, readings: seq<Reading>, n: nat): (Id, seq<Id>)
    requires n <= |readings|
  {
    if n == 0 then (start, []) else
      var before := Followed(start, readings, n - 1);
      match PageOf(Some(before.0), readings[n - 1].limit, readings[n - 1].answer, readings[n - 1].probe)
      case Err(_) => before
      case Ok(page) =>
        (if page.messages == [] then before.0 else page.messages[|page.messages| - 1], before.1 + page.messages)
  }

  /** The service answers honestly, and the channel only grows at its end between one request and the next. */
  ghost predicate HonestReadings(start: Id, readings: seq<Reading>, n: nat)
    requires n <= |readings|
  {
    forall k | 0 <= k < n :: HonestReading(start, readings, k)
  }

  ghost predicate HonestReading(start: Id, readings: seq<Reading>, k: nat)
    requires k < |readings|
  {
    var r, at := readings[k], Followed(start, readings, k).0;
    && Ascending(r.fetched) && Ascending(r.probed) && r.fetched <= r.probed && 1 <= r.limit <= MAX_LIMIT
    && (k > 0 ==> readings[k - 1].probed <= r.fetched)
    && Honest(r.fetched, Some(at), FetchLimit(Some(at), r.limit), r.answer)
    && var cut := Cut(Above(r.fetched, at), r.limit);
       cut != [] ==> Honest(r.probed, Some(cut[|cut| - 1]), 1, r.probe)
  }

  /** The ids of a channel after one position, up to another. */
  ghost predicate Covers(seen: seq<Id>, channel: seq<Id>, start: Id, end: Id) {
    start <= end && Ascending(seen) && forall x :: x in seen <==> x in channel && start < x <= end
  }

  /** Ids up to one the channel already holds do not change as it grows. */
  lemma GrowthIsLater(channel: seq<Id>, next: seq<Id>, id: Id)
    requires Ascending(next) && channel <= next && id in channel
    ensures forall x | x <= id :: x in next <==> x in channel
  {
    var k :| 0 <= k < |channel| && channel[k] == id;
    forall x | x <= id && x in next ensures x in channel {
      var i :| 0 <= i < |next| && next[i] == x;
      assert next[k] == id && next[i] <= next[k];
      assert i <= k;
      assert channel[i] == x;
    }
  }

  lemma PageExtends(channel: seq<Id>, seen: seq<Id>, start: Id, at: Id, limit: nat)
    requires Ascending(channel) && Covers(seen, channel, start, at) && 1 <= limit
    ensures var cut := Cut(Above(channel, at), limit);
            Covers(seen + cut, channel, start, if cut == [] then at else cut[|cut| - 1])
  {
    var ids := Above(channel, at);
    var cut := Cut(ids, limit);
    AboveAscends(channel, at);
    if ids == [] {
      assert cut == [] && seen + cut == seen;
    } else {
      CutGoesOn(ids, limit);
      var end := cut[|cut| - 1];
      assert end in ids;
      var all := seen + cut;
      forall i, j | 0 <= i < j < |all| ensures all[i] < all[j] {
        assert i < |seen| ==> seen[i] in seen;
        assert j >= |seen| ==> cut[j - |seen|] in cut;
      }
      forall x ensures x in all <==> x in channel && start < x <= end {
        assert x in all <==> x in seen || x in cut;
      }
    }
  }

  /** What one honest reading adds. */
  lemma ReadingAdds(start: Id, readings: seq<Reading>, n: nat)
    requires n < |readings| && HonestReading(start, readings, n)
    ensures var r, before := readings[n], Followed(start, readings, n);
            var cut := Cut(Above(r.fetched, before.0), r.limit);
            Followed(start, readings, n + 1) == (if cut == [] then before.0 else cut[|cut| - 1], before.1 + cut)
  {
    var r, before := readings[n], Followed(start, readings, n);
    PageIsExact(r.fetched, r.probed, before.0, r.limit, r.answer, r.probe);
  }

  /**
   Following the cursors from any position gives every message after it, up to the last one returned, exactly once and
   in ascending order, of the channel as the last page saw it, however it grew meanwhile.
   */
  lemma {:induction false} FollowingCovers(start: Id, readings: seq<Reading>, n: nat)
    requires 0 < n <= |readings| && HonestReadings(start, readings, n)
    ensures Covers(Followed(start, readings, n).1, readings[n - 1].fetched, start, Followed(start, readings, n).0)
    ensures Followed(start, readings, n).0 == start || Followed(start, readings, n).0 in readings[n - 1].fetched
  {
    hide PageOf, Honest, Cut, Above;
    var r, before := readings[n - 1], Followed(start, readings, n - 1);
    assert HonestReading(start, readings, n - 1);
    ReadingAdds(start, readings, n - 1);
    if n > 1 {
      FollowingCovers(start, readings, n - 1);
      assert HonestReading(start, readings, n - 2);
      StillCovers(before.1, readings[n - 2].fetched, r.fetched, start, before.0);
    }
    PageExtends(r.fetched, before.1, start, before.0, r.limit);
    CutIsFromChannel(r.fetched, before.0, r.limit);
  }

  lemma CutIsFromChannel(channel: seq<Id>, at: Id, limit: nat)
    ensures forall x | x in Cut(Above(channel, at), limit) :: x in channel
  {
  }

  lemma StillCovers(seen: seq<Id>, channel: seq<Id>, next: seq<Id>, start: Id, at: Id)
    requires Ascending(next) && channel <= next && Covers(seen, channel, start, at) && (at == start || at in channel)
    ensures Covers(seen, next, start, at) && (at == start || at in next)
  {
    if at != start {
      GrowthIsLater(channel, next, at);
    }
  }

  /** When a page says there is no more, everything after the starting position has been returned. */
  lemma NothingMoreIsEverything(start: Id, readings: seq<Reading>, n: nat)
    requires 0 < n <= |readings| && HonestReadings(start, readings, n)
    ensures var r, at, end := readings[n - 1], Followed(start, readings, n - 1).0, Followed(start, readings, n);
            var page := PageOf(Some(at), r.limit, r.answer, r.probe);
            page.Ok? && (!page.value.hasMore ==> forall x :: x in end.1 <==> x in r.fetched && x > start)
  {
    var r, at, end := readings[n - 1], Followed(start, readings, n - 1).0, Followed(start, readings, n);
    assert HonestReading(start, readings, n - 1);
    PageIsExact(r.fetched, r.probed, at, r.limit, r.answer, r.probe);
    ReadingAdds(start, readings, n - 1);
    FollowingCovers(start, readings, n);
    var page := PageOf(Some(at), r.limit, r.answer, r.probe).value;
    hide PageOf, Honest, Cut, Above, Sort;
    GrowthContinues(r.fetched, r.probed, end.0);
  }

  lemma GrowthContinues(channel: seq<Id>, next: seq<Id>, id: Id)
    requires channel <= next
    ensures Continues(channel, id) ==> Continues(next, id)
  {
    forall x | x in channel ensures x in next {
      var k :| 0 <= k < |channel| && channel[k] == x;
      assert next[k] == x;
    }
  }

  lemma {:induction false} FetchedGrows(start: Id, readings: seq<Reading>, n: nat)
    requires 0 < n <= |readings| && HonestReadings(start, readings, n)
    ensures readings[0].fetched <= readings[n - 1].fetched && Ascending(readings[n - 1].fetched)
  {
    hide Honest, Cut, Above, Ascending;
    assert HonestReading(start, readings, n - 1);
    if n > 1 {
      FetchedGrows(start, readings, n - 1);
      assert HonestReading(start, readings, n - 2);
    }
  }

  /**
   A client that reads the first page without a cursor and follows the cursors from there has, after any number of
   pages, every message from the first page's first one to the last returned, each once and in ascending order.
   */
  lemma FirstThenFollow(channel: seq<Id>, limit: nat, readings: seq<Reading>, n: nat)
    requires Ascending(channel) && channel != [] && 1 <= limit && 0 < n <= |readings| && channel <= readings[0].fetched
    requires HonestReadings(channel[|channel| - 1], readings, n)
    ensures var page, end := Newest(channel, limit), Followed(channel[|channel| - 1], readings, n);
            var all := page + end.1;
            Ascending(all) && forall x :: x in all <==> x in readings[n - 1].fetched && page[0] <= x <= end.0
  {
    var start, page := channel[|channel| - 1], Newest(channel, limit);
    var end, last := Followed(start, readings, n), readings[n - 1].fetched;
    FollowingCovers(start, readings, n);
    FetchedGrows(start, readings, n);
    hide Followed, HonestReadings;
    GrowthIsLater(channel, last, start);
    NewestMeans(channel, limit);
    Glued(page, end.1, last, start, end.0);
  }

  lemma NewestMeans(channel: seq<Id>, limit: nat)
    requires Ascending(channel) && channel != [] && 1 <= limit
    ensures var page := Newest(channel, limit);
            page != [] && Ascending(page) && forall x :: x in page <==>
              x in channel && page[0] <= x <= channel[|channel| - 1]
  {
    var skip := if |channel| > limit then |channel| - limit else 0;
    assert Newest(channel, limit) == channel[skip..];
    forall x ensures x in channel[skip..] <==> x in channel && channel[skip] <= x <= channel[|channel| - 1] {
      SuffixMember(channel, skip, x);
    }
  }

  lemma SuffixMember(channel: seq<Id>, skip: nat, x: Id)
    requires Ascending(channel) && skip < |channel|
    ensures x in channel[skip..] <==> x in channel && channel[skip] <= x <= channel[|channel| - 1]
  {
    if x in channel {
      var i :| 0 <= i < |channel| && channel[i] == x;
      if i >= skip {
        assert channel[skip..][i - skip] == x;
      }
    }
  }

  lemma Glued(page: seq<Id>, more: seq<Id>, channel: seq<Id>, mid: Id, end: Id)
    requires page != [] && Ascending(page) && (forall x :: x in page <==> x in channel && page[0] <= x <= mid)
    requires Covers(more, channel, mid, end) && page[0] <= mid
    ensures Ascending(page + more) && forall x :: x in page + more <==> x in channel && page[0] <= x <= end
  {
    var all := page + more;
    forall i, j | 0 <= i < j < |all| ensures all[i] < all[j] {
      assert i < |page| ==> page[i] in page;
      assert j >= |page| ==> more[j - |page|] in more;
    }
    forall x ensures x in all <==> x in channel && page[0] <= x <= end {
      assert x in all <==> x in page || x in more;
    }
  }
}

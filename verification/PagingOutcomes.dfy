/** What a page request accepts of any answer whatever, honest or not, and what page it makes of it. */
module PagingOutcomes {
  import opened Text
  import opened Paging

  /** Distinct ids, no more than were asked for, all above the cursor. */
  predicate IsAnswer(after: Option<Id>, limit: nat, answer: seq<Id>) {
    && (forall i, j | 0 <= i < j < |answer| :: answer[i] != answer[j])
    && |answer| <= (if after.Some? then (if limit < 100 then limit + 1 else 100) else limit)
    && (after.Some? ==> forall i | 0 <= i < |answer| :: after.value < answer[i])
  }

  /** The page holds the smallest ids of the answer, at most `limit` of them, in ascending order. */
  ghost predicate IsPageOf(messages: seq<Id>, limit: nat, answer: seq<Id>) {
    |messages| == (if |answer| < limit then |answer| else limit) && AreSmallest(messages, answer)
  }

  ghost predicate AreSmallest(messages: seq<Id>, answer: seq<Id>) {
    && (forall i, j | 0 <= i < j < |messages| :: messages[i] < messages[j])
    && (forall x | x in messages :: x in answer)
    && (forall x, y | x in messages && y in answer && y !in messages :: x < y)
  }

  /** At most one id, past the page. */
  predicate IsProbe(messages: seq<Id>, probe: seq<Id>) {
    |probe| <= 1 && forall x, y | x in probe && y in messages :: y < x
  }

  lemma CutIsPage(limit: nat, answer: seq<Id>)
    requires Distinct(answer)
    ensures IsPageOf(Cut(Sort(answer), limit), limit, answer)
    ensures Ascending(Cut(Sort(answer), limit))
  {
    SortAscends(answer);
    var rows := Sort(answer);
    var cut := Cut(rows, limit);
    forall x, y | x in cut && y in answer && y !in cut ensures x < y {
      var i :| 0 <= i < |cut| && cut[i] == x;
      assert y in rows;
      var j :| 0 <= j < |rows| && rows[j] == y;
      assert j < |cut| ==> cut[j] == y;
    }
  }

  lemma SortedAbove(rows: seq<Id>, answer: seq<Id>, after: Id)
    requires forall x :: x in rows <==> x in answer
    ensures AllAbove(rows, after) <==> forall i | 0 <= i < |answer| :: after < answer[i]
  {
    if AllAbove(rows, after) {
      forall i | 0 <= i < |answer| ensures after < answer[i] {
        assert answer[i] in rows;
      }
    }
    if forall i | 0 <= i < |answer| :: after < answer[i] {
      forall i | 0 <= i < |rows| ensures after < rows[i] {
        assert rows[i] in answer;
      }
    }
  }

  lemma ProbeExactly(cut: seq<Id>, probe: seq<Id>)
    requires Ascending(cut) && cut != []
    ensures IsProbe(cut, probe) <==> |probe| <= 1 && AllAbove(probe, cut[|cut| - 1])
  {
    assert cut[|cut| - 1] in cut;
    assert forall i | 0 <= i < |probe| :: probe[i] in probe;
    forall y | y in cut ensures y <= cut[|cut| - 1] {
      LastIsGreatest(cut, y);
    }
  }

  lemma PageShape(after: Option<Id>, limit: nat, answer: seq<Id>, probe: seq<Id>)
    ensures var r, cut := PageOf(after, limit, answer, probe), Cut(Sort(answer), limit);
            if !(1 <= limit <= 100) || !IsAnswer(after, limit, answer) then r.Err?
            else if answer == [] || (after.Some? && limit < 100) then r == Ok(Page(cut, |answer| > limit))
            else if IsProbe(cut, probe) then r == Ok(Page(cut, probe != []))
            else r.Err?
  {
    hide Sort, AllAbove, IsProbe, Distinct, IsAnswer, FetchLimit, IsPageOf, Ascending;
    AnswerExactly(after, limit, answer);
    var cut := Cut(Sort(answer), limit);
    assert limit > 0 ==> (cut == [] <==> answer == []);
    if IsAnswer(after, limit, answer) && limit > 0 && answer != [] {
      CutIsPage(limit, answer);
      ProbeExactly(cut, probe);
    }
    hide Cut;
  }

  lemma AnswerExactly(after: Option<Id>, limit: nat, answer: seq<Id>)
    ensures IsAnswer(after, limit, answer) <==>
              && Distinct(answer) && |Sort(answer)| <= FetchLimit(after, limit)
              && (after.Some? ==> AllAbove(Sort(answer), after.value))
  {
    if after.Some? { SortedAbove(Sort(answer), answer, after.value); }
    hide Sort, AllAbove;
  }

  /**
   For any answers of the service: a page is made exactly if the limit is in range, the answer holds distinct ids, no
   more than asked for, above the cursor, and where a probe is needed it holds at most one id past the page.  The page
   is the smallest ids of the answer in ascending order, and says there is more exactly if the answer or the probe held
   more.
   */
  lemma PageAccepted(after: Option<Id>, limit: nat, answer: seq<Id>, probe: seq<Id>)
    ensures var r := PageOf(after, limit, answer, probe);
            && (r.Ok? ==> 1 <= limit <= 100 && IsAnswer(after, limit, answer))
            && (r.Ok? ==> IsPageOf(r.value.messages, limit, answer))
            && (r.Ok? && answer != [] && (after.None? || limit == 100) ==>
                  IsProbe(r.value.messages, probe) && (r.value.hasMore <==> probe != []))
            && (r.Ok? && (answer == [] || (after.Some? && limit < 100)) ==> (r.value.hasMore <==> |answer| > limit))
            && (r.Err? ==>
                  || !(1 <= limit <= 100) || !IsAnswer(after, limit, answer)
                  || (answer != [] && (after.None? || limit == 100)
                      && forall page :: IsPageOf(page, limit, answer) ==> !IsProbe(page, probe)))
  {
    PageShape(after, limit, answer, probe);
    if Distinct(answer) {
      CutIsOnlyPage(limit, answer);
    }
    hide PageOf, Sort, Cut, IsPageOf, IsProbe;
  }

  lemma CutIsOnlyPage(limit: nat, answer: seq<Id>)
    requires Distinct(answer)
    ensures Ascending(Cut(Sort(answer), limit))
    ensures forall page :: IsPageOf(page, limit, answer) <==> page == Cut(Sort(answer), limit)
  {
    CutIsPage(limit, answer);
    var cut := Cut(Sort(answer), limit);
    hide IsPageOf;
    forall page | IsPageOf(page, limit, answer) ensures page == cut {
      PageIsUnique(page, cut, limit, answer);
    }
  }

  lemma PageIsUnique(a: seq<Id>, b: seq<Id>, limit: nat, answer: seq<Id>)
    requires IsPageOf(a, limit, answer) && IsPageOf(b, limit, answer)
    ensures a == b
  {
    forall x ensures x in a <==> x in b {
      if x in a && x !in b {
        OneAway(a, b, x, answer);
      } else if x in b && x !in a {
        OneAway(b, a, x, answer);
      }
    }
    AscendingUnique(a, b);
  }

  /** An id of one page only lies above all of the other, so that one has fewer. */
  lemma OneAway(a: seq<Id>, b: seq<Id>, x: Id, answer: seq<Id>)
    requires AreSmallest(a, answer) && AreSmallest(b, answer) && x in a && x !in b
    ensures |b| < |a|
  {
    forall y | y in b ensures y in a && y != x {
      assert y < x;
      assert y in answer && y !in a ==> x < y;
    }
    Fewer(b, a, x);
  }

  lemma Fewer(b: seq<Id>, a: seq<Id>, x: Id)
    requires Ascending(a) && Ascending(b) && x in a && forall y | y in b :: y in a && y != x
    ensures |b| < |a|
  {
    var s, t := set y | y in b, set y | y in a;
    Elements(a, t);
    Elements(b, s);
    assert s <= t - {x};
    SubsetSize(s, t - {x});
  }

  lemma {:induction false} Elements(s: seq<Id>, t: set<Id>)
    requires Ascending(s) && t == set x | x in s
    ensures |t| == |s|
  {
    if s != [] {
      InitMembers(s);
      var last := s[|s| - 1];
      Elements(s[..|s| - 1], t - {last});
    }
  }
}

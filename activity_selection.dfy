/** Choosing activities in the Brightway database: the median-score activity
    among those matching keywords (`get_median_act`), and the location
    fallback used when an input must be linked to one activity among several
    of the same name (`create_act_new_location`, `duplicate_act_new_location`). */
module ActivitySelection {
  import opened Common

  // ---------------------------------------------------------------------------
  // get_median_act

  datatype Act = Act(name: string, location: string, unit: string, code: string)

  /** `name_to_include`, `name_to_exclude`, `unit` and `location_keywords`
      (None for no location filter). */
  datatype Query = Query(included: seq<string>, excluded: seq<string>, unit: string, locations: Option<seq<string>>)

  predicate Matches(a: Act, q: Query)
  {
    (forall k :: 0 <= k < |q.included| ==> ContainsSubstring(a.name, q.included[k]))
    && (forall k :: 0 <= k < |q.excluded| ==> !ContainsSubstring(a.name, q.excluded[k]))
    && (q.locations.Some? ==> a.location in q.locations.value)
    && ContainsSubstring(a.unit, q.unit)
  }

  /** The list comprehension over the database, in database order. */
  function Candidates(db: seq<Act>, q: Query): (r: seq<Act>)
    ensures forall a :: a in r <==> a in db && Matches(a, q)
  {
    if |db| == 0 then []
    else Candidates(db[..|db| - 1], q) + (if Matches(db[|db| - 1], q) then [db[|db| - 1]] else [])
  }

  /** One row of the score table: the activity's code and its LCA score. */
  datatype Row = Row(code: string, score: real)

  function Rows(acts: seq<Act>, score: Act -> real): (r: seq<Row>)
    ensures |r| == |acts| && forall k :: 0 <= k < |acts| ==> r[k] == Row(acts[k].code, score(acts[k]))
  {
    seq(|acts|, k requires 0 <= k < |acts| => Row(acts[k].code, score(acts[k])))
  }

  predicate SortedByScore(s: seq<Row>)
  {
    forall i, j :: 0 <= i < j < |s| ==> s[i].score <= s[j].score
  }

  function InsertRow(r: Row, s: seq<Row>): (t: seq<Row>)
    requires SortedByScore(s)
    ensures |t| == |s| + 1 && SortedByScore(t) && multiset(t) == multiset(s) + multiset{r}
  {
    if |s| == 0 then [r]
    else if r.score <= s[0].score then [r] + s
    else
      var rest := InsertRow(r, s[1..]);
      assert s == [s[0]] + s[1..];
      InsertAbove(r, s, rest);
      [s[0]] + rest
  }

  /** Inserting a row above the first one keeps the first row lowest. */
  lemma InsertAbove(r: Row, s: seq<Row>, rest: seq<Row>)
    requires |s| > 0 && SortedByScore(s) && s[0].score < r.score
    requires multiset(rest) == multiset(s[1..]) + multiset{r}
    ensures forall x :: x in rest ==> s[0].score <= x.score
  {
    forall x | x in rest ensures s[0].score <= x.score {
      assert x in multiset(rest);
      if x != r {
        assert x in multiset(s[1..]);
        var j :| 0 <= j < |s[1..]| && s[1..][j] == x;
        assert s[j + 1] == x;
      }
    }
  }

  /** `sort_values(by='Score')`: the rows in ascending order of score. */
  function SortByScore(rows: seq<Row>): (t: seq<Row>)
    ensures |t| == |rows| && SortedByScore(t) && multiset(t) == multiset(rows)
  {
    if |rows| == 0 then []
    else
      assert rows == rows[..|rows| - 1] + [rows[|rows| - 1]];
      InsertRow(rows[|rows| - 1], SortByScore(rows[..|rows| - 1]))
  }

  function Scores(rows: seq<Row>): (r: seq<real>)
    ensures |r| == |rows| && forall k :: 0 <= k < |rows| ==> r[k] == rows[k].score
  {
    seq(|rows|, k requires 0 <= k < |rows| => rows[k].score)
  }

  /** `median()` of sorted values: the middle one, or the mean of the two
      middle ones for an even count. */
  function Median(s: seq<real>): real
    requires |s| > 0
  {
    if |s| % 2 == 1 then s[|s| / 2] else (s[|s| / 2 - 1] + s[|s| / 2]) / 2.0
  }

  /** `iloc[-1]` of the values at most `v`: the last position holding one. */
  function LastAtMost(s: seq<real>, v: real): (r: Option<nat>)
    ensures r.Some? ==> r.value < |s| && s[r.value] <= v && forall j :: r.value < j < |s| ==> s[j] > v
    ensures r.None? <==> forall j :: 0 <= j < |s| ==> s[j] > v
  {
    if |s| == 0 then None
    else if s[|s| - 1] <= v then Some(|s| - 1)
    else LastAtMost(s[..|s| - 1], v)
  }

  /** In ascending values the last one at most the median is the lower
      middle value: the median itself for an odd count. */
  lemma LowerMiddle(s: seq<real>)
    requires |s| > 0 && forall i, j :: 0 <= i < j < |s| ==> s[i] <= s[j]
    ensures LastAtMost(s, Median(s)).Some?
    ensures s[LastAtMost(s, Median(s)).value] == s[(|s| - 1) / 2]
    ensures |s| % 2 == 1 ==> s[LastAtMost(s, Median(s)).value] == Median(s)
  {
    var m := (|s| - 1) / 2;
    var med := Median(s);
    if |s| % 2 == 1 {
      assert m == |s| / 2 && med == s[m];
    } else {
      assert m + 1 == |s| / 2 && med == (s[m] + s[m + 1]) / 2.0;
      assert s[m] <= s[m + 1];
    }
    assert s[m] <= med;
    var r := LastAtMost(s, med);
    assert r.Some?;
    var i := r.value;
    assert m <= i;
    if i > m {
      assert s[m] <= s[i] <= med;
      if |s| % 2 == 0 {
        assert s[m + 1] <= s[i];
      }
    }
  }

  /** Among the rows, the one at the last position at most `med` has the
      largest score at most `med`. */
  lemma LastIsLargestAtMost(sorted: seq<Row>, med: real, i: nat)
    requires SortedByScore(sorted) && LastAtMost(Scores(sorted), med) == Some(i)
    ensures i < |sorted| && sorted[i].score <= med
    ensures forall x :: x in sorted && x.score <= med ==> x.score <= sorted[i].score
  {
    forall x | x in sorted && x.score <= med ensures x.score <= sorted[i].score {
      var j :| 0 <= j < |sorted| && sorted[j] == x;
      assert Scores(sorted)[j] <= med;
    }
  }

  /** The median score of the candidates, taken over the sorted rows. */
  function MedianScore(acts: seq<Act>, score: Act -> real): real
    requires |acts| > 0
  {
    Median(Scores(SortByScore(Rows(acts, score))))
  }

  /** `code` is the code of an activity whose score is the largest among the
      scores at most `med`. */
  predicate LargestAtMost(acts: seq<Act>, score: Act -> real, code: string, med: real)
  {
    exists a :: a in acts && a.code == code && score(a) <= med
      && forall b :: b in acts && score(b) <= med ==> score(b) <= score(a)
  }

  /** The activity of a row, and the row of an activity. */
  lemma RowsOfActs(acts: seq<Act>, score: Act -> real)
    ensures forall b :: b in acts ==> Row(b.code, score(b)) in Rows(acts, score)
    ensures forall x :: x in Rows(acts, score) ==> exists a :: a in acts && x == Row(a.code, score(a))
  {
    var rows := Rows(acts, score);
    forall b | b in acts ensures Row(b.code, score(b)) in rows {
      var k :| 0 <= k < |acts| && acts[k] == b;
      assert rows[k] == Row(b.code, score(b));
    }
    forall x | x in rows ensures exists a :: a in acts && x == Row(a.code, score(a)) {
      var k :| 0 <= k < |rows| && rows[k] == x;
      assert acts[k] in acts;
    }
  }

  /** The row selected from the sorted table belongs to an activity with the
      largest score at most the median. */
  lemma SelectedRow(acts: seq<Act>, score: Act -> real, i: nat)
    requires |acts| > 0
    requires LastAtMost(Scores(SortByScore(Rows(acts, score))), MedianScore(acts, score)) == Some(i)
    ensures i < |acts|
    ensures LargestAtMost(acts, score, SortByScore(Rows(acts, score))[i].code, MedianScore(acts, score))
  {
    var rows := Rows(acts, score);
    var sorted := SortByScore(rows);
    var med := MedianScore(acts, score);
    LastIsLargestAtMost(sorted, med, i);
    ActOfSortedRow(acts, score, sorted[i]);
    var a :| a in acts && sorted[i] == Row(a.code, score(a));
    forall b | b in acts && score(b) <= med ensures score(b) <= score(a) {
      RowOfActIsSorted(acts, score, b);
    }
    assert a.code == sorted[i].code && score(a) <= med;
  }

  lemma ActOfSortedRow(acts: seq<Act>, score: Act -> real, x: Row)
    requires x in SortByScore(Rows(acts, score))
    ensures exists a :: a in acts && x == Row(a.code, score(a))
  {
    RowsOfActs(acts, score);
    assert x in multiset(Rows(acts, score));
  }

  lemma RowOfActIsSorted(acts: seq<Act>, score: Act -> real, b: Act)
    requires b in acts
    ensures Row(b.code, score(b)) in SortByScore(Rows(acts, score))
  {
    RowsOfActs(acts, score);
    assert Row(b.code, score(b)) in multiset(SortByScore(Rows(acts, score)));
  }

  /** get_median_act: no matching activity raises KeyError; otherwise the
      code of the last activity, in score order, whose score is at most the
      median score. */
  method MedianActivity(db: seq<Act>, q: Query, score: Act -> real) returns (r: Result<string>)
    ensures r.Failure? <==> |Candidates(db, q)| == 0
    ensures r.Failure? ==> r.error == KeyError
    ensures r.Success? ==>
      |Candidates(db, q)| > 0 && LargestAtMost(Candidates(db, q), score, r.value, MedianScore(Candidates(db, q), score))
  {
    var acts := Candidates(db, q);
    if |acts| == 0 {
      return Failure(KeyError);
    }
    var rows: seq<Row> := [];
    for k := 0 to |acts|
      invariant rows == Rows(acts[..k], score)
    {
      rows := rows + [Row(acts[k].code, score(acts[k]))];
    }
    assert acts[..|acts|] == acts;
    var sorted := SortByScore(rows);
    var scores := Scores(sorted);
    var med := Median(scores);
    LowerMiddle(scores);
    var i := LastAtMost(scores, med).value;
    SelectedRow(acts, score, i);
    r := Success(sorted[i].code);
  }

  /** In a sorted table, a row whose score is the largest at most the
      median sits at the lower middle score. */
  lemma LargestAtMostIsLowerMiddle(sorted: seq<Row>, x: Row)
    requires |sorted| > 0 && SortedByScore(sorted) && x in sorted
    requires x.score <= Median(Scores(sorted))
    requires forall y :: y in sorted && y.score <= Median(Scores(sorted)) ==> y.score <= x.score
    ensures x.score == sorted[(|sorted| - 1) / 2].score
  {
    var med := Median(Scores(sorted));
    LowerMiddle(Scores(sorted));
    var i := LastAtMost(Scores(sorted), med).value;
    LastIsLargestAtMost(sorted, med, i);
    assert sorted[i].score <= x.score;
  }

  /** The selected score is the lower middle of the candidates' scores in
      ascending order: the exact median for an odd count, the lower of the
      two middle scores for an even one. */
  lemma MedianIsLowerMiddle(acts: seq<Act>, score: Act -> real, a: Act)
    requires |acts| > 0 && a in acts
    requires score(a) <= MedianScore(acts, score)
    requires forall b :: b in acts && score(b) <= MedianScore(acts, score) ==> score(b) <= score(a)
    ensures score(a) == Scores(SortByScore(Rows(acts, score)))[(|acts| - 1) / 2]
  {
    var rows := Rows(acts, score);
    var sorted := SortByScore(rows);
    var med := MedianScore(acts, score);
    RowsOfActs(acts, score);
    var x := Row(a.code, score(a));
    assert x in multiset(sorted);
    forall y | y in sorted && y.score <= med ensures y.score <= x.score {
      assert y in multiset(rows);
    }
    LargestAtMostIsLowerMiddle(sorted, x);
  }

  // ---------------------------------------------------------------------------
  // Location fallback

  /** The first location containing `sub`. */
  function FirstContaining(locations: seq<string>, sub: string): (r: Option<nat>)
    ensures r.Some? ==> r.value < |locations| && ContainsSubstring(locations[r.value], sub)
    ensures r.Some? ==> forall j :: 0 <= j < r.value ==> !ContainsSubstring(locations[j], sub)
    ensures r.None? <==> forall j :: 0 <= j < |locations| ==> !ContainsSubstring(locations[j], sub)
  {
    if |locations| == 0 then None
    else if ContainsSubstring(locations[0], sub) then Some(0)
    else match FirstContaining(locations[1..], sub)
      case None => None
      case Some(k) => Some(k + 1)
  }

  /** The location an input is taken from (create_act_new_location): the new
      location if available, else GLO, else the first RoW variant, else the
      first available one; none available raises IndexError. */
  function FallbackLocation(newLocation: string, available: seq<string>): (r: Result<string>)
    ensures r.Failure? <==> |available| == 0
    ensures r.Failure? ==> r.error == IndexError
    ensures r.Success? ==> r.value in available
    ensures newLocation in available ==> r == Success(newLocation)
    ensures newLocation !in available && "GLO" in available ==> r == Success("GLO")
    ensures newLocation !in available && "GLO" !in available && r.Success? ==>
      (ContainsSubstring(r.value, "RoW") <==> exists j :: 0 <= j < |available| && ContainsSubstring(available[j], "RoW"))
    ensures newLocation !in available && "GLO" !in available && FirstContaining(available, "RoW").Some? ==>
      r == Success(available[FirstContaining(available, "RoW").value])
    ensures newLocation !in available && "GLO" !in available && FirstContaining(available, "RoW").None? && |available| > 0 ==>
      r == Success(available[0])
  {
    if newLocation in available then Success(newLocation)
    else if "GLO" in available then Success("GLO")
    else match FirstContaining(available, "RoW")
      case Some(k) => Success(available[k])
      case None => if |available| == 0 then Failure(IndexError) else Success(available[0])
  }

  /** The activity an aggregated input is linked to (duplicate_act_new_location),
      by position among the activities of that name: the first at the new
      location, else the first at GLO, else the first RoW variant, else the
      first one. */
  function FallbackInput(newLocation: string, locations: seq<string>): (r: Result<nat>)
    ensures r.Failure? <==> |locations| == 0
    ensures r.Failure? ==> r.error == IndexError
    ensures r.Success? ==> r.value < |locations|
    ensures newLocation in locations ==> r == Success(IndexOf(locations, newLocation).value)
    ensures newLocation !in locations && "GLO" in locations ==> r == Success(IndexOf(locations, "GLO").value)
    ensures newLocation !in locations && "GLO" !in locations && FirstContaining(locations, "RoW").Some? ==>
      r == Success(FirstContaining(locations, "RoW").value)
    ensures newLocation !in locations && "GLO" !in locations && FirstContaining(locations, "RoW").None? && |locations| > 0 ==>
      r == Success(0)
  {
    if newLocation in locations then Success(IndexOf(locations, newLocation).value)
    else if "GLO" in locations then Success(IndexOf(locations, "GLO").value)
    else match FirstContaining(locations, "RoW")
      case Some(k) => Success(k)
      case None => if |locations| == 0 then Failure(IndexError) else Success(0)
  }

  /** The first location containing `sub` is also the first occurrence of
      its own name. */
  lemma FirstContainingIsFirstOccurrence(locations: seq<string>, sub: string, k: nat)
    requires FirstContaining(locations, sub) == Some(k)
    ensures IndexOf(locations, locations[k]) == Some(k)
  {
    var i := IndexOf(locations, locations[k]).value;
    assert i <= k;
  }

  /** Both call sites pick the same activity: the one the second site links
      is the first activity at the location the first site chooses. */
  lemma FallbackSitesAgree(newLocation: string, locations: seq<string>)
    requires |locations| > 0
    ensures FallbackLocation(newLocation, locations).Success?
    ensures FallbackInput(newLocation, locations)
         == Success(IndexOf(locations, FallbackLocation(newLocation, locations).value).value)
  {
    if newLocation !in locations && "GLO" !in locations {
      var f := FirstContaining(locations, "RoW");
      if f.Some? {
        FirstContainingIsFirstOccurrence(locations, "RoW", f.value);
      } else {
        assert IndexOf(locations, locations[0]) == Some(0);
      }
    }
  }
}

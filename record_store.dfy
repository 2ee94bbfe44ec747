/**
 The measurement log: one table of records that is only ever appended to,
 the submit path that parses, computes, classifies and appends, and the
 history query that selects one user's records ordered by date.
 */
module RecordStore {
  import opened TextOrder
  import opened Timestamp
  import opened BmiEngine

  datatype Option<T> = None | Some(value: T)

  /** One row of the table; `date` is the formatted timestamp. */
  datatype Record = Record(id: nat, username: string, date: string, weight: real, height: real, bmi: real)

  /** One point of a user's history: the (date, bmi) columns of a row. */
  datatype Point = Point(date: string, bmi: real)

  /** What a submission leads to. */
  datatype SubmitOutcome =
    | InvalidInput                        // weight or height did not parse as a number
    | DivisionByZero                      // the height was zero: the formula raises
    | Saved(bmi: real, category: Category)

  /** What a history request leads to. */
  datatype HistoryOutcome = NoRecords | Plot(points: seq<Point>)

  function PointOf(r: Record): Point
  {
    Point(r.date, r.bmi)
  }

  /** The query's WHERE clause and column list: the (date, bmi) of every row of `u`, in table order. */
  function SelectByUser(records: seq<Record>, u: string): (ps: seq<Point>)
    ensures |ps| <= |records|
    ensures forall p :: p in ps <==> exists i :: 0 <= i < |records| && records[i].username == u && p == PointOf(records[i])
  {
    if records == [] then []
    else
      var init, last := records[..|records| - 1], records[|records| - 1];
      assert forall i :: 0 <= i < |init| ==> init[i] == records[i];
      SelectByUser(init, u) + (if last.username == u then [PointOf(last)] else [])
  }

  /** Ascending by date, under the table's text order. */
  predicate SortedByDate(ps: seq<Point>)
  {
    forall i, j :: 0 <= i < j < |ps| ==> TextLeq(ps[i].date, ps[j].date)
  }

  /** `p` placed before the first point whose date is not earlier than its own. */
  function InsertByDate(p: Point, ps: seq<Point>): (r: seq<Point>)
    ensures multiset(r) == multiset(ps) + multiset{p}
  {
    if ps == [] then [p]
    else if TextLeq(p.date, ps[0].date) then [p] + ps
    else
      assert ps == [ps[0]] + ps[1..];
      [ps[0]] + InsertByDate(p, ps[1..])
  }

  lemma {:induction false} InsertByDateSorted(p: Point, ps: seq<Point>)
    requires SortedByDate(ps)
    ensures SortedByDate(InsertByDate(p, ps))
  {
    if ps == [] {
    } else if TextLeq(p.date, ps[0].date) {
      forall j | 0 <= j < |ps| ensures TextLeq(p.date, ps[j].date) {
        if j > 0 {
          TextLeqTransitive(p.date, ps[0].date, ps[j].date);
        }
      }
    } else {
      TextLeqTotal(p.date, ps[0].date);
      var rest := InsertByDate(p, ps[1..]);
      InsertByDateSorted(p, ps[1..]);
      forall q | q in rest ensures TextLeq(ps[0].date, q.date) {
        assert q in multiset(rest);
        if q != p {
          assert q in multiset(ps[1..]);
          var k :| 0 <= k < |ps[1..]| && ps[1..][k] == q;
          assert ps[k + 1] == q;
        }
      }
      var r := [ps[0]] + rest;
      forall i, j | 0 <= i < j < |r| ensures TextLeq(r[i].date, r[j].date) {
        if i == 0 {
          assert r[j] == rest[j - 1];
          assert r[j] in rest;
        } else {
          assert r[i] == rest[i - 1] && r[j] == rest[j - 1];
        }
      }
    }
  }

  /** The query's ORDER BY date: a sorted permutation of its input. */
  function OrderByDate(ps: seq<Point>): (r: seq<Point>)
    ensures SortedByDate(r)
    ensures multiset(r) == multiset(ps)
  {
    if ps == [] then []
    else
      assert ps == [ps[0]] + ps[1..];
      InsertByDateSorted(ps[0], OrderByDate(ps[1..]));
      InsertByDate(ps[0], OrderByDate(ps[1..]))
  }

  /** `SELECT date, bmi FROM bmi_records WHERE username = u ORDER BY date`. */
  function History(records: seq<Record>, u: string): seq<Point>
  {
    OrderByDate(SelectByUser(records, u))
  }

  /**
   The history of `u` is sorted by date and holds, as often as they occur,
   exactly the (date, bmi) pairs of the records whose username equals `u`.
   */
  lemma HistorySpec(records: seq<Record>, u: string)
    ensures SortedByDate(History(records, u))
    ensures multiset(History(records, u)) == multiset(SelectByUser(records, u))
    ensures forall p :: p in History(records, u) <==>
      exists i :: 0 <= i < |records| && records[i].username == u && p == PointOf(records[i])
    ensures History(records, u) == [] <==> forall i :: 0 <= i < |records| ==> records[i].username != u
  {
    var h, s := History(records, u), SelectByUser(records, u);
    assert forall p :: p in h <==> p in multiset(h);
    assert forall p :: p in s <==> p in multiset(s);
    if h == [] {
      forall i | 0 <= i < |records|
        ensures records[i].username != u
      {
        assert PointOf(records[i]) !in h;
      }
    } else {
      assert h[0] in h;
    }
  }

  /**
   Appending one record changes the history of its own user by exactly
   its point, and the history of every other user not at all.
   */
  lemma {:induction false} HistoryAfterAppend(records: seq<Record>, r: Record, u: string)
    ensures r.username == u ==>
      multiset(History(records + [r], u)) == multiset(History(records, u)) + multiset{PointOf(r)}
    ensures r.username != u ==> History(records + [r], u) == History(records, u)
  {
    var all := records + [r];
    assert all[..|all| - 1] == records && all[|all| - 1] == r;
    var before := SelectByUser(records, u);
    var after := SelectByUser(all, u);
    if r.username == u {
      assert after == before + [PointOf(r)];
      assert multiset(after) == multiset(before) + multiset{PointOf(r)};
    } else {
      assert after == before + [];
      assert before + [] == before;
    }
  }

  /** The username filter is exact: a record of "Alice" is not in the history of "alice". */
  lemma HistoryIsCaseSensitive(r: Record)
    requires r.username == "Alice"
    ensures History([r], "alice") == []
    ensures History([r], "Alice") == [PointOf(r)]
  {
    assert "Alice"[0] != "alice"[0];
    assert [r][..0] == [];
    var p := PointOf(r);
    assert SelectByUser([r], "Alice") == [p];
    assert [p][1..] == [];
    assert OrderByDate([p]) == InsertByDate(p, OrderByDate([]));
  }

  /** The store: the table's rows in insertion order, behind one handle. */
  class Store {
    var records: seq<Record>

    /** Row identifiers are assigned 1, 2, 3, ... in insertion order and never reused. */
    ghost predicate Valid()
      reads this
    {
      forall i :: 0 <= i < |records| ==> records[i].id == i + 1
    }

    constructor ()
      ensures Valid() && records == []
    {
      records := [];
    }

    /**
     Submit one measurement. `weight` and `height` are the parsed form
     fields (`None` when parsing failed); `now` is the clock's reading.
     */
    method Submit(username: string, weight: Option<real>, height: Option<real>, now: DateTime)
      returns (outcome: SubmitOutcome)
      requires Valid() && ValidDateTime(now)
      modifies this
      ensures Valid()
      ensures (weight.None? || height.None?) ==> outcome == InvalidInput && records == old(records)
      ensures (weight.Some? && height.Some? && height.value == 0.0) ==>
        outcome == DivisionByZero && records == old(records)
      ensures (weight.Some? && height.Some? && height.value != 0.0) ==>
        && outcome == Saved(CalculateBmi(weight.value, height.value), Classify(CalculateBmi(weight.value, height.value)))
        && records == old(records) + [Record(|old(records)| + 1, username, Format(now),
                                             weight.value, height.value, CalculateBmi(weight.value, height.value))]
    {
      if weight.None? || height.None? {
        return InvalidInput;
      }
      var w, h := weight.value, height.value;
      if h == 0.0 {
        return DivisionByZero;
      }
      var bmi := CalculateBmi(w, h);
      var category := Classify(bmi);
      records := records + [Record(|records| + 1, username, Format(now), w, h, bmi)];
      outcome := Saved(bmi, category);
    }

    /** Fetch the history of `u` for plotting, or report that there is none. */
    method ViewHistory(u: string) returns (outcome: HistoryOutcome)
      ensures outcome == (if History(records, u) == [] then NoRecords else Plot(History(records, u)))
      ensures outcome == NoRecords <==> forall i :: 0 <= i < |records| ==> records[i].username != u
      ensures outcome.Plot? ==>
        && outcome.points != []
        && SortedByDate(outcome.points)
        && multiset(outcome.points) == multiset(SelectByUser(records, u))
        && forall p :: p in outcome.points <==>
             exists i :: 0 <= i < |records| && records[i].username == u && p == PointOf(records[i])
    {
      var h := History(records, u);
      HistorySpec(records, u);
      if h == [] {
        outcome := NoRecords;
      } else {
        outcome := Plot(h);
      }
    }
  }
}

/** The result resolver of computeFS: the query built from the four form values,
    the degree normalisation, and the first-match search over the data set. */
module Resolver {
  import opened Wrappers
  import opened Text
  import opened JsNumbers
  import opened JsValues
  import opened Tables
  import opened Readback

  /** One row of the precomputed data set, keyed as in the JSON file: Zone,
      "Depth (m)", Case, "Degree (°)", "F.S." and "X (m)". A key missing from the
      object reads as Undefined. */
  datatype Row = Row(zone: JsValue, depth: JsValue, caseType: JsValue, degree: JsValue, fs: JsValue, x: JsValue)

  const DegreeSign: char := '\U{B0}'

  /** normalizeDeg on text: the first degree sign removed, then the whitespace
      at both ends. */
  function NormalizeDegText(s: string): (r: string)
    ensures Trimmed(r)
    ensures DegreeSign !in s ==> r == Trim(s)
  {
    Trim(RemoveFirst(s, DegreeSign))
  }

  /** normalizeDeg(d): d.toString() comes first, and calling it on null or
      undefined throws a TypeError (None). */
  function NormalizeDeg(d: JsValue): (r: Option<string>)
    ensures r.None? <==> d.Undefined? || d.Null?
    ensures r.Some? ==> r.value == NormalizeDegText(ToJsString(d))
  {
    match CallToString(d)
    case None => None
    case Some(s) => Some(NormalizeDegText(s))
  }

  /** The values computeFS compares each row with: the group code (`undefined`
      for an unknown zone), the depth text, the case code (`undefined` for an
      unknown label) and the angle text. */
  datatype Query = Query(prefix: JsValue, depth: string, caseType: JsValue, theta: string)

  function GroupValue(g: Option<Group>): JsValue {
    match g
    case Some(x) => Str(x.Code())
    case None => Undefined
  }

  function CaseValue(c: Option<Case>): JsValue {
    match c
    case Some(x) => Str(x.Code())
    case None => Undefined
  }

  /** The query computeFS builds from the zone, depth, angle and water-level
      fields through ZONE_MAP and WATER_LEVEL_MAP. */
  function QueryFor(zone: string, depth: string, theta: string, level: string): Query {
    Query(GroupValue(ZoneGroup(zone)), depth, CaseValue(WaterCase(level)), theta)
  }

  /** The predicate computeFS passes to find, evaluated left to right with `&&`
      short-circuiting: Zone `===`, depth `==`, Case `===`, then the normalised
      angles `===`. Some(b) is its value; None is the TypeError thrown when the
      first three hold and the row's angle is null or undefined. */
  function RowTest(x: Row, q: Query): Option<bool> {
    if !StrictEquals(x.zone, q.prefix) || !LooseEquals(x.depth, Str(q.depth)) || !StrictEquals(x.caseType, q.caseType) then
      Some(false)
    else
      match NormalizeDeg(x.degree)
      case None => None
      case Some(a) => Some(a == NormalizeDegText(q.theta))
  }

  /** A row whose group, depth and case agree with the query is decided by
      its normalised angle alone. */
  lemma KeysMatch(x: Row, q: Query, angle: string)
    requires StrictEquals(x.zone, q.prefix) && LooseEquals(x.depth, Str(q.depth))
    requires StrictEquals(x.caseType, q.caseType)
    requires NormalizeDeg(x.degree) == Some(angle)
    ensures RowTest(x, q) == Some(angle == NormalizeDegText(q.theta))
  {
  }

  /** Every row in rows[from..to] is rejected by the predicate. */
  predicate Rejected(rows: seq<Row>, q: Query, from: nat, to: nat)
    requires from <= to <= |rows|
  {
    forall j :: from <= j < to ==> RowTest(rows[j], q) == Some(false)
  }

  /** What find does: returns the row at an index, returns undefined, or
      propagates the exception the predicate threw at an index. */
  datatype Search = Found(index: nat) | NotFound | Threw(index: nat)

  /** Array.prototype.find from index `from` on: the first row the predicate
      accepts, with every row before it rejected; or the first row on which
      the predicate throws, with every row before it rejected; or none. */
  function FindFrom(rows: seq<Row>, q: Query, from: nat): (r: Search)
    requires from <= |rows|
    ensures r.Found? ==> from <= r.index < |rows| && RowTest(rows[r.index], q) == Some(true) && Rejected(rows, q, from, r.index)
    ensures r.Threw? ==> from <= r.index < |rows| && RowTest(rows[r.index], q).None? && Rejected(rows, q, from, r.index)
    ensures r.NotFound? ==> Rejected(rows, q, from, |rows|)
    decreases |rows| - from
  {
    if from == |rows| then NotFound
    else
      match RowTest(rows[from], q)
      case None => Threw(from)
      case Some(true) => Found(from)
      case Some(false) => FindFrom(rows, q, from + 1)
  }

  /** FS_DATA.find(pred): the first row in data-set order that matches. */
  function Find(rows: seq<Row>, q: Query): (r: Search)
    ensures r.Found? ==> r.index < |rows| && RowTest(rows[r.index], q) == Some(true) && Rejected(rows, q, 0, r.index)
    ensures r.Threw? ==> r.index < |rows| && RowTest(rows[r.index], q).None? && Rejected(rows, q, 0, r.index)
    ensures r.NotFound? ==> Rejected(rows, q, 0, |rows|)
  {
    FindFrom(rows, q, 0)
  }

  // ---------------------------------------------------------------------------
  // Properties of the search
  // ---------------------------------------------------------------------------

  /** First match wins: once a row matches, no later row is returned (and the
      search cannot run past it). A later row with the same key is never the
      result. */
  lemma FirstMatchWins(rows: seq<Row>, q: Query, i: nat)
    requires i < |rows| && RowTest(rows[i], q) == Some(true)
    ensures !Find(rows, q).NotFound?
    ensures Find(rows, q).Found? ==> Find(rows, q).index <= i
    ensures Find(rows, q).Threw? ==> Find(rows, q).index < i
  {
    SearchStopsBy(rows, q, 0, i);
  }

  /** A matching row with every row before it rejected is the one found. */
  lemma FoundAt(rows: seq<Row>, q: Query, i: nat)
    requires i < |rows| && RowTest(rows[i], q) == Some(true) && Rejected(rows, q, 0, i)
    ensures Find(rows, q) == Found(i)
  {
    FirstMatchWins(rows, q, i);
  }

  /** A search started at or before a matching row stops at or before it. */
  lemma {:induction false} SearchStopsBy(rows: seq<Row>, q: Query, from: nat, i: nat)
    requires from <= i < |rows| && RowTest(rows[i], q) == Some(true)
    ensures FindFrom(rows, q, from).Found? ==> FindFrom(rows, q, from).index <= i
    ensures FindFrom(rows, q, from).Threw? ==> FindFrom(rows, q, from).index < i
    ensures !FindFrom(rows, q, from).NotFound?
    decreases i - from
  {
    FindFromStep(rows, q, from);
    if from < i && RowTest(rows[from], q) == Some(false) {
      SearchStopsBy(rows, q, from + 1, i);
    }
  }

  /** One step of the search: the row at `from` decides, or the search moves on. */
  lemma FindFromStep(rows: seq<Row>, q: Query, from: nat)
    requires from < |rows|
    ensures var t := RowTest(rows[from], q);
      FindFrom(rows, q, from) == if t.None? then Threw(from) else if t.value then Found(from) else FindFrom(rows, q, from + 1)
  {
  }

  /** When the predicate throws on no row, a matching row anywhere in the data
      set is found, and the row found matches. */
  lemma MatchIsFound(rows: seq<Row>, q: Query, i: nat)
    requires i < |rows| && RowTest(rows[i], q) == Some(true)
    requires forall j :: 0 <= j < |rows| ==> RowTest(rows[j], q).Some?
    ensures Find(rows, q).Found?
  {
    FirstMatchWins(rows, q, i);
  }

  // ---------------------------------------------------------------------------
  // Angle normalisation
  // ---------------------------------------------------------------------------

  /** Angle texts that differ only in whitespace around them and one degree
      sign after them normalise to the same text. */
  lemma DegreeForms(w1: string, t: string, w2: string, w3: string)
    requires AllSpace(w1) && AllSpace(w2) && AllSpace(w3)
    requires Trimmed(t) && DegreeSign !in t
    ensures NormalizeDegText(w1 + t + w2) == t
    ensures NormalizeDegText(w1 + t + w2 + [DegreeSign] + w3) == t
  {
    PaddedAngle(w1, t, w2);
    PaddedAngleWithSign(w1, t, w2, w3);
  }

  lemma PaddedAngle(w1: string, t: string, w2: string)
    requires AllSpace(w1) && AllSpace(w2)
    requires Trimmed(t) && DegreeSign !in t
    ensures DegreeSign !in w1 + t + w2
    ensures NormalizeDegText(w1 + t + w2) == t
  {
    NoDegreeSignInSpace(w1);
    NoDegreeSignInSpace(w2);
    TrimPadded(w1, t, w2);
  }

  lemma PaddedAngleWithSign(w1: string, t: string, w2: string, w3: string)
    requires AllSpace(w1) && AllSpace(w2) && AllSpace(w3)
    requires Trimmed(t) && DegreeSign !in t
    ensures NormalizeDegText(w1 + t + w2 + [DegreeSign] + w3) == t
  {
    var a := w1 + t + w2;
    PaddedAngle(w1, t, w2);
    RemoveFirstAfter(a, DegreeSign, w3);
    assert a + w3 == w1 + t + (w2 + w3);
    AllSpaceConcat(w2, w3);
    TrimPadded(w1, t, w2 + w3);
  }

  lemma NoDegreeSignInSpace(w: string)
    requires AllSpace(w)
    ensures DegreeSign !in w
  {
    assert !IsSpace(DegreeSign);
    forall i | 0 <= i < |w|
      ensures w[i] != DegreeSign
    {
    }
  }

  /** Only the first degree sign is removed. */
  lemma OnlyFirstDegreeSign(t: string)
    requires t != [] && Trimmed(t) && DegreeSign !in t
    ensures NormalizeDegText(t + [DegreeSign, DegreeSign]) == t + [DegreeSign]
  {
    assert t + [DegreeSign, DegreeSign] == t + [DegreeSign] + [DegreeSign];
    RemoveFirstAfter(t, DegreeSign, [DegreeSign]);
    assert !IsSpace(DegreeSign);
    TrimPadded([], t + [DegreeSign], []);
    assert [] + (t + [DegreeSign]) + [] == t + [DegreeSign];
  }

  // ---------------------------------------------------------------------------
  // How data-set values meet form values
  // ---------------------------------------------------------------------------

  /** Depth is compared with `==`: a numeric depth in the data set matches the
      form's digit text for it ("5" and "05" both match 5), where `===` would
      not. */
  lemma DepthMatchesLoosely(s: string)
    requires AllDigits(s) && s != []
    ensures LooseEquals(Num(Dec(DigitsValue(s), 0)), Str(s))
    ensures !StrictEquals(Num(Dec(DigitsValue(s), 0)), Str(s))
  {
    DigitsNumber(s);
    NumberStringEquality(Dec(DigitsValue(s), 0), s);
  }

  /** A whole-number angle stored as a number normalises to its decimal text,
      so it matches the form's "15", "15°" or " 15° ". */
  lemma NumericAngle(n: nat)
    ensures NormalizeDeg(Num(Dec(n, 0))) == Some(NatToString(n))
  {
    var t := NatToString(n);
    assert ToJsString(Num(Dec(n, 0))) == t by {
      IntegerText(n);
    }
    assert DegreeSign !in t by {
      forall i | 0 <= i < |t|
        ensures t[i] != DegreeSign
      {
        assert IsDigit(t[i]);
      }
    }
    assert Trim(t) == t by {
      NotSpaceDigit(t[0]);
      NotSpaceDigit(t[|t| - 1]);
      TrimKeeps(t);
    }
  }
}

/**
 * The list built by searchAnswerGroupsByLocationAndPrefab: a submission
 * is appended once for every sub-group holding a GEOLOCATION question
 * whose stored point lies in the zone. The `break` leaves only the
 * question loop, so a submission with several such sub-groups is
 * appended several times.
 */
module GeoSearch {
  import opened Results
  import opened Values
  import opened Forms

  /** The reference point and radius of a location query. */
  datatype Query = Query(latitude: real, longitude: real, distanceKm: real)

  /**
   * isPointWithinZone(pointLat, pointLng, referenceLat, referenceLng,
   * maxDistanceKm); a stored coordinate is given by the text of its
   * `Double`.
   */
  type ZoneTest = (string, string, real, real, real) -> bool

  /** The `(Map<String, Object>)` cast of a stored answer, with `containsKey` on null. */
  function AsMap(answer: Value): (r: Result<seq<(string, Value)>, Crash>)
    ensures r.Ok? <==> answer.Obj?
    ensures r.Ok? ==> r.value == answer.entries
    ensures answer.Null? ==> r == Err(NullPointer)
    ensures !answer.Obj? && !answer.Null? ==> r == Err(ClassCast)
  {
    match answer
    case Obj(entries) => Ok(entries)
    case Null => Err(NullPointer)
    case _ => Err(ClassCast)
  }

  /**
   * The `(double)` cast of a coordinate: only a stored `Double` unboxes;
   * an `Integer` or a string is a `ClassCastException`, null a
   * `NullPointerException`.
   */
  function Coordinate(v: Value): (r: Result<string, Crash>)
    ensures r.Ok? <==> v.Num? && v.kind == Floating
    ensures r.Ok? ==> r.value == v.text
    ensures v.Null? ==> r == Err(NullPointer)
    ensures r.Err? && !v.Null? ==> r.error == ClassCast
  {
    match v
    case Num(Floating, text) => Ok(text)
    case Null => Err(NullPointer)
    case _ => Err(ClassCast)
  }

  /**
   * The body of the question loop: whether the question puts its
   * submission in the result. The stored `type` decides, the answer must
   * be a map, and the point is passed as (lng, lat).
   */
  function QuestionHit(q: AnswerQuestion, query: Query, inZone: ZoneTest): (r: Result<bool, Crash>)
    ensures q.qtype != Some(Geolocation) ==> r == Ok(false)
    ensures q.qtype == Some(Geolocation) && !q.answer.Obj? ==> r.Err?
    ensures r == Ok(true) ==>
      && q.qtype == Some(Geolocation)
      && q.answer.Obj?
      && HasKey(q.answer.entries, "lat") && HasKey(q.answer.entries, "lng")
      && var lat, lng := Get(q.answer.entries, "lat"), Get(q.answer.entries, "lng");
         && lat.Num? && lat.kind == Floating && lng.Num? && lng.kind == Floating
         && inZone(lng.text, lat.text, query.latitude, query.longitude, query.distanceKm)
  {
    if q.qtype != Some(Geolocation) then Ok(false)
    else
      match AsMap(q.answer)
      case Err(e) => Err(e)
      case Ok(m) =>
        if !(HasKey(m, "lat") && HasKey(m, "lng")) then Ok(false)
        else
          match Coordinate(Get(m, "lat"))
          case Err(e) => Err(e)
          case Ok(lat) =>
            match Coordinate(Get(m, "lng"))
            case Err(e) => Err(e)
            case Ok(lng) => Ok(inZone(lng, lat, query.latitude, query.longitude, query.distanceKm))
  }

  /** The question loop with its `break`, as a left fold: nothing is evaluated after the first hit. */
  function ScanQuestions(qs: seq<AnswerQuestion>, query: Query, inZone: ZoneTest): Result<bool, Crash>
    decreases |qs|
  {
    if qs == [] then Ok(false)
    else
      match ScanQuestions(qs[..|qs| - 1], query, inZone)
      case Err(e) => Err(e)
      case Ok(true) => Ok(true)
      case Ok(false) => QuestionHit(qs[|qs| - 1], query, inZone)
  }

  /** The sub-group loop for one submission `g`: one copy of `g` per sub-group with a hit. */
  function GroupCopies(g: AnswerGroup, subs: seq<AnswerSubGroup>, query: Query, inZone: ZoneTest)
    : Result<seq<AnswerGroup>, Crash>
    decreases |subs|
  {
    if subs == [] then Ok([])
    else
      match GroupCopies(g, subs[..|subs| - 1], query, inZone)
      case Err(e) => Err(e)
      case Ok(copies) =>
        match ScanQuestions(subs[|subs| - 1].questions, query, inZone)
        case Err(e) => Err(e)
        case Ok(hit) => Ok(if hit then copies + [g] else copies)
  }

  /** The whole filter over the submissions of a prefab, in order. */
  function GeoFilter(groups: seq<AnswerGroup>, query: Query, inZone: ZoneTest): Result<seq<AnswerGroup>, Crash>
    decreases |groups|
  {
    if groups == [] then Ok([])
    else
      var last := groups[|groups| - 1];
      match GeoFilter(groups[..|groups| - 1], query, inZone)
      case Err(e) => Err(e)
      case Ok(out) =>
        match GroupCopies(last, last.answers, query, inZone)
        case Err(e) => Err(e)
        case Ok(copies) => Ok(out + copies)
  }

  /** Question k hits and every question before it evaluates to `false`. */
  predicate FirstHitAt(qs: seq<AnswerQuestion>, k: int, query: Query, inZone: ZoneTest)
  {
    && 0 <= k < |qs|
    && QuestionHit(qs[k], query, inZone) == Ok(true)
    && forall j :: 0 <= j < k ==> QuestionHit(qs[j], query, inZone) == Ok(false)
  }

  /** The question loop answers `false` iff every question evaluates to `false`. */
  lemma {:induction false} ScanNoHit(qs: seq<AnswerQuestion>, query: Query, inZone: ZoneTest)
    ensures ScanQuestions(qs, query, inZone) == Ok(false) <==>
      forall j :: 0 <= j < |qs| ==> QuestionHit(qs[j], query, inZone) == Ok(false)
    decreases |qs|
  {
    if qs != [] {
      var n := |qs| - 1;
      var init := qs[..n];
      ScanNoHit(init, query, inZone);
      assert forall j :: 0 <= j < n ==> init[j] == qs[j];
    }
  }

  /** A first hit before position n is a first hit of the first n questions. */
  lemma FirstHitOfPrefix(qs: seq<AnswerQuestion>, n: nat, query: Query, inZone: ZoneTest)
    requires n <= |qs|
    ensures forall k :: FirstHitAt(qs, k, query, inZone) && k < n ==> FirstHitAt(qs[..n], k, query, inZone)
  {
    assert forall j :: 0 <= j < n ==> qs[..n][j] == qs[j];
  }

  /**
   * The question loop stops at the first hit: it answers `true` iff some
   * question hits and every question before it evaluates to `false`.
   */
  lemma {:induction false} ScanFirstHit(qs: seq<AnswerQuestion>, query: Query, inZone: ZoneTest)
    ensures ScanQuestions(qs, query, inZone) == Ok(true) <==> exists k :: FirstHitAt(qs, k, query, inZone)
    decreases |qs|
  {
    if qs != [] {
      var n := |qs| - 1;
      var init := qs[..n];
      ScanFirstHit(init, query, inZone);
      ScanNoHit(init, query, inZone);
      assert forall j :: 0 <= j < n ==> init[j] == qs[j];
      var prior := ScanQuestions(init, query, inZone);
      if prior == Ok(true) {
        var k :| FirstHitAt(init, k, query, inZone);
        assert FirstHitAt(qs, k, query, inZone);
      } else {
        FirstHitOfPrefix(qs, n, query, inZone);
        if prior == Ok(false) && QuestionHit(qs[n], query, inZone) == Ok(true) {
          assert FirstHitAt(qs, n, query, inZone);
        }
      }
    }
  }

  /** A crash in a prefix of the questions is the crash of the whole question loop. */
  lemma {:induction false} ScanCrashPersists(qs: seq<AnswerQuestion>, query: Query, inZone: ZoneTest, k: nat)
    requires k <= |qs| && ScanQuestions(qs[..k], query, inZone).Err?
    ensures ScanQuestions(qs, query, inZone) == ScanQuestions(qs[..k], query, inZone)
    decreases |qs| - k
  {
    if k < |qs| {
      assert qs[..k + 1][..k] == qs[..k];
      ScanCrashPersists(qs, query, inZone, k + 1);
    } else {
      assert qs[..k] == qs;
    }
  }

  /** After a hit the rest of the questions is not looked at (the `break`). */
  lemma {:induction false} ScanStaysHit(qs: seq<AnswerQuestion>, query: Query, inZone: ZoneTest, k: nat)
    requires k <= |qs| && ScanQuestions(qs[..k], query, inZone) == Ok(true)
    ensures ScanQuestions(qs, query, inZone) == Ok(true)
    decreases |qs| - k
  {
    if k < |qs| {
      assert qs[..k + 1][..k] == qs[..k];
      ScanStaysHit(qs, query, inZone, k + 1);
    } else {
      assert qs[..k] == qs;
    }
  }

  /** A crash in a prefix of the sub-groups is the crash of the sub-group loop. */
  lemma {:induction false} CopiesCrashPersists(g: AnswerGroup, subs: seq<AnswerSubGroup>, query: Query,
                                               inZone: ZoneTest, k: nat)
    requires k <= |subs| && GroupCopies(g, subs[..k], query, inZone).Err?
    ensures GroupCopies(g, subs, query, inZone) == GroupCopies(g, subs[..k], query, inZone)
    decreases |subs| - k
  {
    if k < |subs| {
      assert subs[..k + 1][..k] == subs[..k];
      CopiesCrashPersists(g, subs, query, inZone, k + 1);
    } else {
      assert subs[..k] == subs;
    }
  }

  /** A crash in a prefix of the submissions is the crash of the whole filter. */
  lemma {:induction false} FilterCrashPersists(groups: seq<AnswerGroup>, query: Query, inZone: ZoneTest, k: nat)
    requires k <= |groups| && GeoFilter(groups[..k], query, inZone).Err?
    ensures GeoFilter(groups, query, inZone) == GeoFilter(groups[..k], query, inZone)
    decreases |groups| - k
  {
    if k < |groups| {
      assert groups[..k + 1][..k] == groups[..k];
      FilterCrashPersists(groups, query, inZone, k + 1);
    } else {
      assert groups[..k] == groups;
    }
  }

  /** Some sub-group of `g` has a question that puts `g` in the result. */
  predicate HasHit(g: AnswerGroup, query: Query, inZone: ZoneTest)
  {
    exists j :: 0 <= j < |g.answers| && ScanQuestions(g.answers[j].questions, query, inZone) == Ok(true)
  }

  /** The number of sub-groups in `subs` with a question that hits. */
  function HitCount(subs: seq<AnswerSubGroup>, query: Query, inZone: ZoneTest): (n: nat)
    ensures n <= |subs|
    ensures n > 0 <==> exists j :: 0 <= j < |subs| && ScanQuestions(subs[j].questions, query, inZone) == Ok(true)
  {
    if subs == [] then 0
    else
      var rest := HitCount(subs[1..], query, inZone);
      assert forall j :: 0 < j < |subs| ==> subs[j] == subs[1..][j - 1];
      (if ScanQuestions(subs[0].questions, query, inZone) == Ok(true) then 1 else 0) + rest
  }

  /** Counting hits one more sub-group at the end adds that sub-group's hit. */
  lemma {:induction false} HitCountSnoc(subs: seq<AnswerSubGroup>, query: Query, inZone: ZoneTest)
    requires subs != []
    ensures HitCount(subs, query, inZone) ==
      HitCount(subs[..|subs| - 1], query, inZone)
      + (if ScanQuestions(subs[|subs| - 1].questions, query, inZone) == Ok(true) then 1 else 0)
    decreases |subs|
  {
    if |subs| > 1 {
      var tail := subs[1..];
      HitCountSnoc(tail, query, inZone);
      assert tail[..|tail| - 1] == subs[..|subs| - 1][1..];
      assert tail[|tail| - 1] == subs[|subs| - 1];
    } else {
      assert subs[..0] == [];
    }
  }

  /**
   * The copies made for one submission are all that submission, exactly
   * one per sub-group that hits, so there is one iff some sub-group hits.
   */
  lemma {:induction false} CopiesOfOneGroup(g: AnswerGroup, subs: seq<AnswerSubGroup>, query: Query, inZone: ZoneTest)
    requires GroupCopies(g, subs, query, inZone).Ok?
    ensures var copies := GroupCopies(g, subs, query, inZone).value;
      && (forall k :: 0 <= k < |copies| ==> copies[k] == g)
      && |copies| == HitCount(subs, query, inZone)
      && |copies| <= |subs|
      && (|copies| > 0 <==>
            exists j :: 0 <= j < |subs| && ScanQuestions(subs[j].questions, query, inZone) == Ok(true))
    decreases |subs|
  {
    if subs != [] {
      var n := |subs| - 1;
      CopiesOfOneGroup(g, subs[..n], query, inZone);
      HitCountSnoc(subs, query, inZone);
    }
  }

  /**
   * The output picks submissions of the input in input order: `idx[k]` is
   * the position in `groups` of the k-th output, and never decreases.
   */
  predicate PicksInOrder(out: seq<AnswerGroup>, groups: seq<AnswerGroup>, idx: seq<nat>)
  {
    && |idx| == |out|
    && (forall k :: 0 <= k < |idx| ==> idx[k] < |groups| && out[k] == groups[idx[k]])
    && (forall k, l :: 0 <= k <= l < |idx| ==> idx[k] <= idx[l])
  }

  /** Appending copies of the next submission extends the picks by its position. */
  lemma PicksExtend(groups: seq<AnswerGroup>, out0: seq<AnswerGroup>, idx0: seq<nat>, copies: seq<AnswerGroup>)
    requires |groups| > 0
    requires PicksInOrder(out0, groups[..|groups| - 1], idx0)
    requires forall k :: 0 <= k < |copies| ==> copies[k] == groups[|groups| - 1]
    ensures var n := |groups| - 1;
      var idx := idx0 + seq(|copies|, _ => n);
      && PicksInOrder(out0 + copies, groups, idx)
      && (forall i :: 0 <= i < n ==> (i in idx <==> i in idx0))
      && (n in idx <==> |copies| > 0)
  {
    var n := |groups| - 1;
    var idx := idx0 + seq(|copies|, _ => n);
    var out := out0 + copies;
    forall k | 0 <= k < |idx|
      ensures idx[k] < |groups| && out[k] == groups[idx[k]]
    {
      if k < |idx0| {
        assert groups[..n][idx0[k]] == groups[idx0[k]];
      }
    }
    forall i | 0 <= i < n && i in idx
      ensures i in idx0
    {
      var k :| 0 <= k < |idx| && idx[k] == i;
      assert k < |idx0|;
    }
    if |copies| > 0 {
      assert idx[|idx0|] == n;
    }
    if n in idx {
      var k :| 0 <= k < |idx| && idx[k] == n;
      assert k >= |idx0|;
    }
  }

  /** A successful filter is the filter of all but the last submission followed by the copies of the last. */
  lemma GeoFilterStep(groups: seq<AnswerGroup>, query: Query, inZone: ZoneTest)
    requires |groups| > 0 && GeoFilter(groups, query, inZone).Ok?
    ensures var last := groups[|groups| - 1];
      && GeoFilter(groups[..|groups| - 1], query, inZone).Ok?
      && GroupCopies(last, last.answers, query, inZone).Ok?
      && GeoFilter(groups, query, inZone).value ==
         GeoFilter(groups[..|groups| - 1], query, inZone).value + GroupCopies(last, last.answers, query, inZone).value
  {
  }

  /** The picks are in order, and submission i is picked iff one of its sub-groups hits. */
  predicate PicksHits(out: seq<AnswerGroup>, groups: seq<AnswerGroup>, idx: seq<nat>, query: Query, inZone: ZoneTest)
  {
    && PicksInOrder(out, groups, idx)
    && forall i :: 0 <= i < |groups| ==> (i in idx <==> HasHit(groups[i], query, inZone))
  }

  /** The copies of the next submission, present iff it hits, extend picks that agree with the hits. */
  lemma PicksHitsExtend(groups: seq<AnswerGroup>, out0: seq<AnswerGroup>, idx0: seq<nat>, copies: seq<AnswerGroup>,
                        query: Query, inZone: ZoneTest)
    requires |groups| > 0
    requires PicksHits(out0, groups[..|groups| - 1], idx0, query, inZone)
    requires forall k :: 0 <= k < |copies| ==> copies[k] == groups[|groups| - 1]
    requires |copies| > 0 <==> HasHit(groups[|groups| - 1], query, inZone)
    ensures PicksHits(out0 + copies, groups, idx0 + seq(|copies|, _ => |groups| - 1), query, inZone)
  {
    var n := |groups| - 1;
    PicksExtend(groups, out0, idx0, copies);
    var idx := idx0 + seq(|copies|, _ => n);
    forall i | 0 <= i < |groups|
      ensures i in idx <==> HasHit(groups[i], query, inZone)
    {
      if i < n {
        assert groups[..n][i] == groups[i];
      }
    }
  }

  /**
   * The filter keeps input order, outputs only input submissions, and
   * picks submission i (at least once) iff one of its sub-groups hits.
   */
  lemma {:induction false} GeoFilterPicks(groups: seq<AnswerGroup>, query: Query, inZone: ZoneTest)
    requires GeoFilter(groups, query, inZone).Ok?
    ensures exists idx :: PicksHits(GeoFilter(groups, query, inZone).value, groups, idx, query, inZone)
    decreases |groups|
  {
    if groups == [] {
      assert PicksHits([], groups, [], query, inZone);
    } else {
      var n := |groups| - 1;
      var init := groups[..n];
      var last := groups[n];
      GeoFilterStep(groups, query, inZone);
      var out0 := GeoFilter(init, query, inZone).value;
      var copies := GroupCopies(last, last.answers, query, inZone).value;
      GeoFilterPicks(init, query, inZone);
      var idx0 :| PicksHits(out0, init, idx0, query, inZone);
      CopiesOfOneGroup(last, last.answers, query, inZone);
      PicksHitsExtend(groups, out0, idx0, copies, query, inZone);
    }
  }

  /**
   * A submission with two sub-groups that each hold a point in the zone is
   * output twice.
   */
  lemma SubmissionListedTwice(query: Query)
    ensures var point := Obj([("lat", Num(Floating, "48.5")), ("lng", Num(Floating, "7.7"))]);
      var sub := AnswerSubGroup("G", [AnswerQuestion("Where", Some(Geolocation), point, None)]);
      var g := AnswerGroup("a1", "p", GUEST, "", None, [sub, sub]);
      var everywhere: ZoneTest := (pLat, pLng, rLat, rLng, km) => true;
      GeoFilter([g], query, everywhere) == Ok([g, g])
  {
    var point := Obj([("lat", Num(Floating, "48.5")), ("lng", Num(Floating, "7.7"))]);
    var q := AnswerQuestion("Where", Some(Geolocation), point, None);
    var sub := AnswerSubGroup("G", [q]);
    var g := AnswerGroup("a1", "p", GUEST, "", None, [sub, sub]);
    var everywhere: ZoneTest := (pLat, pLng, rLat, rLng, km) => true;
    assert point.entries[0].0 == "lat" && point.entries[1].0 == "lng";
    assert Get(point.entries, "lat") == Num(Floating, "48.5");
    assert Get(point.entries, "lng") == Num(Floating, "7.7") by {
      assert "lat" != "lng" by { assert "lat"[1] != "lng"[1]; }
    }
    assert QuestionHit(q, query, everywhere) == Ok(true);
    assert [q][..0] == [];
    assert ScanQuestions([q], query, everywhere) == Ok(true);
    assert [sub][..0] == [];
    assert GroupCopies(g, [], query, everywhere) == Ok([]);
    assert [sub][0].questions == [q];
    assert ScanQuestions([sub][0].questions, query, everywhere) == Ok(true);
    var none: seq<AnswerGroup> := [];
    assert GroupCopies(g, [sub], query, everywhere) == Ok(none + [g]);
    assert none + [g] == [g];
    assert GroupCopies(g, [sub], query, everywhere) == Ok([g]);
    assert [sub, sub][..1] == [sub];
    assert ScanQuestions([sub, sub][1].questions, query, everywhere) == Ok(true);
    assert [g] + [g] == [g, g];
    assert GroupCopies(g, [sub, sub], query, everywhere) == Ok([g, g]);
    assert [g][..0] == [];
    assert GeoFilter([], query, everywhere) == Ok(none);
    assert none + [g, g] == [g, g];
  }
}

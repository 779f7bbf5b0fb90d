/**
 * The stateful side of AnswerService: the answer repository, submission
 * (processAnswer), the listing of a prefab's submissions with its optional
 * location filter (getAnswerGroupByPrefabId and
 * searchAnswerGroupsByLocationAndPrefab) and the read of one submission
 * (getAnswerGroup).
 */
module AnswerStore {
  import opened Results
  import opened Values
  import opened Forms
  import opened AnswerValidation
  import opened Annotation
  import opened GeoSearch

  /** The display name of anonymous submissions. */
  const GUEST_NAME: string := "Guest"

  /** The stored submissions, in insertion order. */
  class AnswerRepository {
    var answers: seq<AnswerGroup>

    constructor()
      ensures answers == []
    {
      answers := [];
    }

    /** save: the submission is stored after the existing ones. */
    method Save(g: AnswerGroup)
      modifies this
      ensures answers == old(answers) + [g]
    {
      answers := answers + [g];
    }
  }

  /** existsByPrefabIdAndUserId */
  predicate Answered(answers: seq<AnswerGroup>, prefabId: string, userId: string)
  {
    exists i :: 0 <= i < |answers| && answers[i].prefabId == prefabId && answers[i].userId == userId
  }

  /**
   * validateUniqueUserResponse: a guest may answer any number of times;
   * any other user is refused once a submission of theirs to the prefab
   * is stored.
   */
  function ValidateUniqueUserResponse(answers: seq<AnswerGroup>, prefabId: string, userId: string)
    : (o: Outcome<Error>)
    ensures userId == GUEST ==> o.Pass?
    ensures userId != GUEST ==> (o.Pass? <==> !Answered(answers, prefabId, userId))
    ensures o.Fail? ==> o.error == UniqueResponse(prefabId, userId)
  {
    if userId != GUEST && Answered(answers, prefabId, userId) then Fail(UniqueResponse(prefabId, userId))
    else Pass
  }

  /** Once a user's submission is stored, every later submission of theirs to that prefab is refused. */
  lemma StoredUserRefused(answers: seq<AnswerGroup>, saved: AnswerGroup, more: seq<AnswerGroup>)
    requires saved.userId != GUEST
    ensures ValidateUniqueUserResponse(answers + [saved] + more, saved.prefabId, saved.userId)
      == Fail(UniqueResponse(saved.prefabId, saved.userId))
  {
    assert (answers + [saved] + more)[|answers|] == saved;
  }

  /**
   * processAnswer: the uniqueness guard, then the prefab check, then the
   * submission is stored under the given user and prefab. Nothing is
   * stored when either check fails.
   */
  method ProcessAnswer(repo: AnswerRepository, prefabs: map<string, Prefab>, prefabId: string, userId: string,
                       submission: AnswerGroup, readTree: JsonReader) returns (r: Result<AnswerGroup, Error>)
    modifies repo
    ensures var guard := ValidateUniqueUserResponse(old(repo.answers), prefabId, userId);
      var check := CheckFormPrefab(prefabs, prefabId, submission, readTree);
      && (guard.Fail? ==> r == Err(guard.error))
      && (guard.Pass? && check.Fail? ==> r == Err(check.error))
      && (r.Err? ==> repo.answers == old(repo.answers))
      && (r.Ok? <==> guard.Pass? && check.Pass?)
    ensures r.Ok? ==>
      && r.value == submission.(userId := userId, prefabId := prefabId)
      && repo.answers == old(repo.answers) + [r.value]
    ensures r.Ok? && userId != GUEST ==> ValidateUniqueUserResponse(repo.answers, prefabId, userId).Fail?
  {
    var guard := ValidateUniqueUserResponse(repo.answers, prefabId, userId);
    if guard.Fail? {
      return Err(guard.error);
    }
    var check := CheckFormPrefab(prefabs, prefabId, submission, readTree);
    if check.Fail? {
      return Err(check.error);
    }
    var saved := submission.(userId := userId, prefabId := prefabId);
    repo.Save(saved);
    if userId != GUEST {
      StoredUserRefused(old(repo.answers), saved, []);
      assert old(repo.answers) + [saved] + [] == repo.answers;
    }
    r := Ok(saved);
  }

  /** findByPrefabId: the stored submissions of one prefab, in insertion order. */
  function ByPrefab(answers: seq<AnswerGroup>, prefabId: string): (r: seq<AnswerGroup>)
    ensures |r| <= |answers|
    ensures forall g :: g in r <==> g in answers && g.prefabId == prefabId
  {
    if answers == [] then []
    else if answers[0].prefabId == prefabId then [answers[0]] + ByPrefab(answers[1..], prefabId)
    else ByPrefab(answers[1..], prefabId)
  }

  /** findByPrefabIdAndId: the first stored submission with that prefab and id. */
  function FindByPrefabIdAndId(answers: seq<AnswerGroup>, prefabId: string, id: string): (r: Option<AnswerGroup>)
    ensures r.Some? <==> exists i :: 0 <= i < |answers| && answers[i].prefabId == prefabId && answers[i].id == id
    ensures r.Some? ==> r.value in answers && r.value.prefabId == prefabId && r.value.id == id
  {
    if answers == [] then None
    else if answers[0].prefabId == prefabId && answers[0].id == id then Some(answers[0])
    else
      var rest := FindByPrefabIdAndId(answers[1..], prefabId, id);
      assert rest.Some? ==> exists i :: 0 <= i < |answers| && answers[i].prefabId == prefabId && answers[i].id == id by {
        if rest.Some? {
          var i :| 0 <= i < |answers[1..]| && answers[1..][i].prefabId == prefabId && answers[1..][i].id == id;
          assert answers[i + 1] == answers[1..][i];
        }
      }
      rest
  }

  /** How the listing is to be done, decided by the query parameters. */
  datatype Mode = Unfiltered | Located(query: Query)

  /**
   * The parameter rule of getAnswerGroupByPrefabId: latitude, longitude
   * and distance are all given or all absent; anything else is a
   * validation error.
   */
  function QueryMode(lat: Option<real>, lng: Option<real>, distance: Option<int>): (r: Result<Mode, Error>)
    ensures r.Ok? <==> (lat.Some? && lng.Some? && distance.Some?) || (lat.None? && lng.None? && distance.None?)
    ensures r.Err? ==> r.error == Validation(InvalidQuery)
    ensures r == Ok(Unfiltered) <==> lat.None? && lng.None? && distance.None?
    ensures r.Ok? && r.value.Located? ==>
      r.value.query == Query(lat.value, lng.value, distance.value as real)
  {
    if lat.Some? && lng.Some? && distance.Some? then Ok(Located(Query(lat.value, lng.value, distance.value as real)))
    else if lat.None? && lng.None? && distance.None? then Ok(Unfiltered)
    else Err(Validation(InvalidQuery))
  }

  /**
   * The user shown with a listed submission: a guest is shown as "Guest"
   * with an empty email, anyone else by the directory entry of the
   * submitter; an unknown submitter is an `EntityNotFoundException`.
   */
  function DisplayUser(userId: string, users: map<string, User>): (r: Result<AnswerUser, Error>)
    ensures userId == GUEST ==> r == Ok(AnswerUser(GUEST_NAME, ""))
    ensures userId != GUEST ==> (r.Ok? <==> userId in users)
    ensures userId != GUEST && userId in users ==>
      r.value.name == users[userId].firstName + " " + users[userId].lastName &&
      r.value.email == users[userId].email
    ensures r.Err? ==> r.error == EntityNotFound(userId)
  {
    if userId == GUEST then Ok(AnswerUser(GUEST_NAME, ""))
    else if userId in users then
      var u := users[userId];
      Ok(AnswerUser(u.firstName + " " + u.lastName, u.email))
    else Err(EntityNotFound(userId))
  }

  /** The `peek` that attaches the display user to each listed submission, stopping at the first unknown user. */
  function AttachUsers(groups: seq<AnswerGroup>, users: map<string, User>): Result<seq<AnswerGroup>, Error>
    decreases |groups|
  {
    if groups == [] then Ok([])
    else
      var last := groups[|groups| - 1];
      match AttachUsers(groups[..|groups| - 1], users)
      case Err(e) => Err(e)
      case Ok(done) =>
        match DisplayUser(last.userId, users)
        case Err(e) => Err(e)
        case Ok(u) => Ok(done + [last.(user := Some(u))])
  }

  /**
   * Attaching users succeeds iff every submitter is a guest or a known
   * user; it then changes nothing but the `user` of each submission.
   */
  lemma {:induction false} AttachUsersPointwise(groups: seq<AnswerGroup>, users: map<string, User>)
    ensures AttachUsers(groups, users).Ok? <==>
      forall i :: 0 <= i < |groups| ==> DisplayUser(groups[i].userId, users).Ok?
    ensures AttachUsers(groups, users).Ok? ==>
      var out := AttachUsers(groups, users).value;
      && |out| == |groups|
      && forall i :: 0 <= i < |groups| ==>
           out[i] == groups[i].(user := Some(DisplayUser(groups[i].userId, users).value))
    decreases |groups|
  {
    if groups != [] {
      var n := |groups| - 1;
      AttachUsersPointwise(groups[..n], users);
      assert forall i :: 0 <= i < n ==> groups[..n][i] == groups[i];
    }
  }

  /** A crash in a prefix of the submissions is the crash of the whole `peek`. */
  lemma {:induction false} AttachCrashPersists(groups: seq<AnswerGroup>, users: map<string, User>, k: nat)
    requires k <= |groups| && AttachUsers(groups[..k], users).Err?
    ensures AttachUsers(groups, users) == AttachUsers(groups[..k], users)
    decreases |groups| - k
  {
    if k < |groups| {
      assert groups[..k + 1][..k] == groups[..k];
      AttachCrashPersists(groups, users, k + 1);
    } else {
      assert groups[..k] == groups;
    }
  }

  /** The result of getAnswerGroupByPrefabId over the stored submissions. */
  function ListAnswers(answers: seq<AnswerGroup>, users: map<string, User>, prefabId: string,
                       lat: Option<real>, lng: Option<real>, distance: Option<int>, inZone: ZoneTest)
    : Result<seq<AnswerGroup>, Error>
  {
    match QueryMode(lat, lng, distance)
    case Err(e) => Err(e)
    case Ok(Unfiltered) => AttachUsers(ByPrefab(answers, prefabId), users)
    case Ok(Located(query)) =>
      match GeoFilter(ByPrefab(answers, prefabId), query, inZone)
      case Err(c) => Err(Unchecked(c))
      case Ok(found) => AttachUsers(found, users)
  }

  /** Attaching users to submissions of one prefab gives submissions of that prefab, each with a user. */
  lemma AttachedOfPrefab(found: seq<AnswerGroup>, users: map<string, User>, prefabId: string)
    requires forall k :: 0 <= k < |found| ==> found[k].prefabId == prefabId
    requires AttachUsers(found, users).Ok?
    ensures var out := AttachUsers(found, users).value;
      forall k :: 0 <= k < |out| ==> out[k].prefabId == prefabId && out[k].user.Some?
  {
    AttachUsersPointwise(found, users);
  }

  /** The location filter of a prefab's submissions holds only submissions of that prefab. */
  lemma FoundOfPrefab(answers: seq<AnswerGroup>, prefabId: string, query: Query, inZone: ZoneTest)
    requires GeoFilter(ByPrefab(answers, prefabId), query, inZone).Ok?
    ensures var found := GeoFilter(ByPrefab(answers, prefabId), query, inZone).value;
      forall k :: 0 <= k < |found| ==> found[k].prefabId == prefabId
  {
    var mine := ByPrefab(answers, prefabId);
    var found := GeoFilter(mine, query, inZone).value;
    GeoFilterPicks(mine, query, inZone);
    var idx :| PicksHits(found, mine, idx, query, inZone);
    forall k | 0 <= k < |found|
      ensures found[k].prefabId == prefabId
    {
      assert PicksInOrder(found, mine, idx);
      assert found[k] == mine[idx[k]];
      assert mine[idx[k]] in mine;
    }
  }

  /**
   * A listing holds only submissions of the requested prefab, each with
   * its display user attached, and without location parameters it holds
   * all of them in insertion order.
   */
  lemma ListedAnswersOfPrefab(answers: seq<AnswerGroup>, users: map<string, User>, prefabId: string,
                              lat: Option<real>, lng: Option<real>, distance: Option<int>, inZone: ZoneTest)
    requires ListAnswers(answers, users, prefabId, lat, lng, distance, inZone).Ok?
    ensures var out := ListAnswers(answers, users, prefabId, lat, lng, distance, inZone).value;
      forall k :: 0 <= k < |out| ==> out[k].prefabId == prefabId && out[k].user.Some?
    ensures lat.None? ==>
      var out := ListAnswers(answers, users, prefabId, lat, lng, distance, inZone).value;
      var mine := ByPrefab(answers, prefabId);
      |out| == |mine| && forall k :: 0 <= k < |out| ==> out[k].(user := mine[k].user) == mine[k]
  {
    var mine := ByPrefab(answers, prefabId);
    match QueryMode(lat, lng, distance)
    case Ok(Unfiltered) =>
      AttachUsersPointwise(mine, users);
      forall k | 0 <= k < |mine|
        ensures mine[k].prefabId == prefabId
      {
        assert mine[k] in mine;
      }
      AttachedOfPrefab(mine, users, prefabId);
    case Ok(Located(query)) =>
      FoundOfPrefab(answers, prefabId, query, inZone);
      AttachedOfPrefab(GeoFilter(mine, query, inZone).value, users, prefabId);
  }

  /**
   * The innermost loop of searchAnswerGroupsByLocationAndPrefab over the
   * questions of one sub-group: the casts of a GEOLOCATION answer and its
   * coordinates, the zone test on (lng, lat), and the `break` at the first
   * hit.
   */
  method ScanSubGroup(questions: seq<AnswerQuestion>, query: Query, inZone: ZoneTest)
    returns (r: Result<bool, Crash>)
    ensures r == ScanQuestions(questions, query, inZone)
  {
    var hit := false;
    var k := 0;
    while k < |questions| && !hit
      invariant k <= |questions|
      invariant ScanQuestions(questions[..k], query, inZone) == Ok(hit)
    {
      var question := questions[k];
      assert questions[..k + 1][..k] == questions[..k];
      if question.qtype == Some(Geolocation) {
        var crash: Option<Crash> := None;
        var cast := AsMap(question.answer);
        if cast.Err? {
          crash := Some(cast.error);
        } else {
          var answerMap := cast.value;
          if HasKey(answerMap, "lat") && HasKey(answerMap, "lng") {
            var lat := Coordinate(Get(answerMap, "lat"));
            var lng := Coordinate(Get(answerMap, "lng"));
            if lat.Err? {
              crash := Some(lat.error);
            } else if lng.Err? {
              crash := Some(lng.error);
            } else if inZone(lng.value, lat.value, query.latitude, query.longitude, query.distanceKm) {
              hit := true;
            }
          }
        }
        if crash.Some? {
          r := Err(crash.value);
          ScanCrashPersists(questions, query, inZone, k + 1);
          return;
        }
      }
      k := k + 1;
    }
    if hit {
      ScanStaysHit(questions, query, inZone, k);
    } else {
      assert questions[..k] == questions;
    }
    r := Ok(hit);
  }

  /**
   * searchAnswerGroupsByLocationAndPrefab: the three nested loops over
   * the prefab's submissions, their sub-groups and their questions; a hit
   * appends the submission and leaves the question loop only.
   */
  method SearchAnswerGroupsByLocationAndPrefab(repo: AnswerRepository, prefabId: string, query: Query,
                                               inZone: ZoneTest) returns (r: Result<seq<AnswerGroup>, Crash>)
    ensures r == GeoFilter(ByPrefab(repo.answers, prefabId), query, inZone)
  {
    var answerGroups := ByPrefab(repo.answers, prefabId);
    var filtered: seq<AnswerGroup> := [];
    var i := 0;
    while i < |answerGroups|
      invariant i <= |answerGroups|
      invariant GeoFilter(answerGroups[..i], query, inZone) == Ok(filtered)
    {
      var group := answerGroups[i];
      assert answerGroups[..i + 1][..i] == answerGroups[..i];
      ghost var before := filtered;
      ghost var copies: seq<AnswerGroup> := [];
      var j := 0;
      while j < |group.answers|
        invariant j <= |group.answers|
        invariant GroupCopies(group, group.answers[..j], query, inZone) == Ok(copies)
        invariant filtered == before + copies
      {
        var questions := group.answers[j].questions;
        assert group.answers[..j + 1][..j] == group.answers[..j];
        var hit := ScanSubGroup(questions, query, inZone);
        if hit.Err? {
          r := Err(hit.error);
          CopiesCrashPersists(group, group.answers, query, inZone, j + 1);
          FilterCrashPersists(answerGroups, query, inZone, i + 1);
          return;
        }
        if hit.value {
          filtered := filtered + [group];
        }
        copies := if hit.value then copies + [group] else copies;
        j := j + 1;
      }
      assert group.answers[..j] == group.answers;
      i := i + 1;
    }
    assert answerGroups[..i] == answerGroups;
    r := Ok(filtered);
  }

  /**
   * The `peek` of getAnswerGroupByPrefabId: each submission in turn gets
   * its display user.
   */
  method PeekUsers(answerGroup: seq<AnswerGroup>, users: map<string, User>) returns (r: Result<seq<AnswerGroup>, Error>)
    ensures r == AttachUsers(answerGroup, users)
  {
    var shown: seq<AnswerGroup> := [];
    var i := 0;
    while i < |answerGroup|
      invariant i <= |answerGroup|
      invariant AttachUsers(answerGroup[..i], users) == Ok(shown)
    {
      var group := answerGroup[i];
      assert answerGroup[..i + 1][..i] == answerGroup[..i];
      var answerUser := DisplayUser(group.userId, users);
      if answerUser.Err? {
        r := Err(answerUser.error);
        AttachCrashPersists(answerGroup, users, i + 1);
        return;
      }
      shown := shown + [group.(user := Some(answerUser.value))];
      i := i + 1;
    }
    assert answerGroup[..i] == answerGroup;
    r := Ok(shown);
  }

  /**
   * getAnswerGroupByPrefabId: the parameter rule, the plain or the
   * location-filtered list, then the display user of each submission.
   */
  method GetAnswerGroupByPrefabId(repo: AnswerRepository, users: map<string, User>, prefabId: string,
                                  lng: Option<real>, lat: Option<real>, distance: Option<int>, inZone: ZoneTest)
    returns (r: Result<seq<AnswerGroup>, Error>)
    ensures r == ListAnswers(repo.answers, users, prefabId, lat, lng, distance, inZone)
  {
    var mode := QueryMode(lat, lng, distance);
    if mode.Err? {
      return Err(mode.error);
    }
    var answerGroup: seq<AnswerGroup>;
    if mode.value.Unfiltered? {
      answerGroup := ByPrefab(repo.answers, prefabId);
    } else {
      var found := SearchAnswerGroupsByLocationAndPrefab(repo, prefabId, mode.value.query, inZone);
      if found.Err? {
        return Err(Unchecked(found.error));
      }
      answerGroup := found.value;
    }
    assert ListAnswers(repo.answers, users, prefabId, lat, lng, distance, inZone) == AttachUsers(answerGroup, users);
    r := PeekUsers(answerGroup, users);
  }

  /**
   * The user shown with a single read submission: a guest is shown as
   * "Guest" with an empty email, anyone else under the name and email of
   * the requesting user rather than those of the submitter.
   */
  function ReaderView(userId: string, requester: User): (r: AnswerUser)
    ensures userId == GUEST ==> r == AnswerUser(GUEST_NAME, "")
    ensures userId != GUEST ==> r.name == requester.firstName + " " + requester.lastName && r.email == requester.email
  {
    if userId == GUEST then AnswerUser(GUEST_NAME, "")
    else AnswerUser(requester.firstName + " " + requester.lastName, requester.email)
  }

  /**
   * The result of getAnswerGroup: ownership first, then the lookup, then
   * the display user, then the prefab lookup, then the annotation, whose
   * failure escapes unchecked.
   */
  function ReadAnswer(answers: seq<AnswerGroup>, prefabs: map<string, Prefab>, prefabId: string,
                      answerId: string, requester: User, owns: bool): (r: Result<AnswerGroup, Error>)
    ensures !owns ==> r == Err(NotOwner(requester.id, prefabId))
    ensures owns && FindByPrefabIdAndId(answers, prefabId, answerId).None? ==> r == Err(ResourceNotFound)
    ensures owns && FindByPrefabIdAndId(answers, prefabId, answerId).Some? ==>
      (r == Err(PrefabNotFound(prefabId)) <==> prefabId !in prefabs)
    ensures owns && FindByPrefabIdAndId(answers, prefabId, answerId).Some? && prefabId in prefabs ==>
      var stored := FindByPrefabIdAndId(answers, prefabId, answerId).value;
      var annotated := AnnotateForm(stored.(user := Some(ReaderView(stored.userId, requester))), prefabs[prefabId]);
      && (annotated.Ok? ==> r == Ok(annotated.value))
      && (annotated.Err? ==> r == Err(Unchecked(annotated.error)))
    ensures r.Ok? ==>
      var stored := FindByPrefabIdAndId(answers, prefabId, answerId);
      && owns && stored.Some? && prefabId in prefabs
      && r.value.id == answerId && r.value.prefabId == prefabId
      && r.value.userId == stored.value.userId
      && |r.value.answers| == |stored.value.answers|
      && r.value.user == Some(ReaderView(stored.value.userId, requester))
  {
    if !owns then Err(NotOwner(requester.id, prefabId))
    else
      match FindByPrefabIdAndId(answers, prefabId, answerId)
      case None => Err(ResourceNotFound)
      case Some(stored) =>
        if prefabId !in prefabs then Err(PrefabNotFound(prefabId))
        else
          match AnnotateForm(stored.(user := Some(ReaderView(stored.userId, requester))), prefabs[prefabId])
          case Err(c) => Err(Unchecked(c))
          case Ok(g) => Ok(g)
  }

  /**
   * When the requester is the submitter, a single read shows the same
   * user as the listing does; for anyone else it shows the requester.
   */
  lemma ReadShowsListedUserToSubmitter(userId: string, users: map<string, User>, requester: User)
    requires userId in users && users[userId] == requester
    ensures DisplayUser(userId, users) == Ok(ReaderView(userId, requester))
  {
  }

  /** getAnswerGroup; `owns` is the answer of doesUserOwnPrefab for the requester. */
  method GetAnswerGroup(repo: AnswerRepository, prefabs: map<string, Prefab>, prefabId: string,
                        answerId: string, requester: User, owns: bool) returns (r: Result<AnswerGroup, Error>)
    ensures r == ReadAnswer(repo.answers, prefabs, prefabId, answerId, requester, owns)
  {
    if !owns {
      return Err(NotOwner(requester.id, prefabId));
    }
    var found := FindByPrefabIdAndId(repo.answers, prefabId, answerId);
    if found.None? {
      return Err(ResourceNotFound);
    }
    var answerGroup := found.value;
    var answerUser := AnswerUser(GUEST_NAME, "");
    if answerGroup.userId != GUEST {
      answerUser := AnswerUser(requester.firstName + " " + requester.lastName, requester.email);
    }
    answerGroup := answerGroup.(user := Some(answerUser));
    if prefabId !in prefabs {
      return Err(PrefabNotFound(prefabId));
    }
    var updated := UpdateAnswerForm(answerGroup, prefabs[prefabId]);
    if updated.Err? {
      return Err(Unchecked(updated.error));
    }
    r := Ok(updated.value);
  }
}

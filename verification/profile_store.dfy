/** The Flask service's single stored profile: `/save_profile` validates a JSON body and
    overwrites the one profile file, `/get_profile` reads it back. The file is a state that
    is either absent or holds one JSON object. */
module ProfileStore {
  import opened Outcomes

  /** A parsed JSON value as `request.get_json()` returns it (numbers restricted to integers). */
  datatype Json =
    | JNull
    | JBool(b: bool)
    | JNum(n: int)
    | JStr(s: string)
    | JArr(items: seq<Json>)
    | JObj(fields: map<string, Json>)

  /** The JSON object kept in the profile file. */
  type Profile = map<string, Json>

  /** The fields a body must carry, in the order they are checked. */
  const RequiredFields: seq<string> := ["nickname", "birthday", "birthplace", "trivia"]

  /** The key the save time is stored under. */
  const SavedAtKey := "saved_at"

  /** Python truthiness of a parsed body: `None`, `False`, `0`, `""`, `[]` and `{}` are falsy. */
  predicate Truthy(v: Json) {
    match v
    case JNull => false
    case JBool(b) => b
    case JNum(n) => n != 0
    case JStr(s) => s != ""
    case JArr(a) => a != []
    case JObj(m) => m != map[]
  }

  /** `key` occurs in `s` starting at index `i`. */
  predicate OccursAt(key: string, s: string, i: int) {
    0 <= i <= |s| - |key| && s[i..i + |key|] == key
  }

  /** `key` occurs as a contiguous piece of `s` (Python's `key in s` on strings). */
  predicate IsSubstring(key: string, s: string) {
    exists i :: 0 <= i <= |s| - |key| && OccursAt(key, s, i)
  }

  /** Python's `key in v`: a dict tests its keys, a list its elements, a string its
      substrings; on a number or a boolean the test raises TypeError (`None` here). */
  function Contains(v: Json, key: string): (r: Option<bool>)
    ensures r.None? <==> !(v.JObj? || v.JArr? || v.JStr?)
    ensures v.JObj? ==> r == Some(key in v.fields)
  {
    match v
    case JObj(m) => Some(key in m)
    case JArr(a) => Some(JStr(key) in a)
    case JStr(s) => Some(IsSubstring(key, s))
    case _ => None
  }

  /** The outcome of checking `fields` in order against a body. */
  datatype Check = AllPresent | Missing(field: string) | Raised

  /** The `for field in required_fields` loop: the first field the body lacks, or
      `Raised` when the membership test itself raises. */
  function FirstMissing(body: Json, fields: seq<string>): (c: Check)
    ensures c.AllPresent? <==> forall k :: 0 <= k < |fields| ==> Contains(body, fields[k]) == Some(true)
    ensures c.Missing? ==> exists k ::
      && 0 <= k < |fields| && fields[k] == c.field
      && Contains(body, fields[k]) == Some(false)
      && forall j :: 0 <= j < k ==> Contains(body, fields[j]) == Some(true)
    ensures c.Raised? ==> |fields| > 0 && Contains(body, fields[0]).None?
    decreases |fields|
  {
    if |fields| == 0 then AllPresent
    else match Contains(body, fields[0])
      case None => Raised
      case Some(false) => Missing(fields[0])
      case Some(true) => FirstMissing(body, fields[1..])
  }

  /** What `/save_profile` answers. */
  datatype SaveOutcome =
    | Saved(data: Profile)      // 200, the stored object
    | NoData                    // 400, empty or falsy body
    | MissingField(field: string)  // 400, the first required field absent
    | Crashed                   // 500, an exception inside the handler

  function SaveStatus(o: SaveOutcome): (code: int)
    ensures o.Saved? <==> code == 200
    ensures o.Crashed? <==> code == 500
    ensures o.NoData? || o.MissingField? ==> code == 400
  {
    match o
    case Saved(_) => 200
    case NoData => 400
    case MissingField(_) => 400
    case Crashed => 500
  }

  /** The `"error"` text of a 400 reply. A missing-field message starts with the field's name. */
  function ErrorMessage(o: SaveOutcome): (msg: string)
    requires o.NoData? || o.MissingField?
    ensures o.MissingField? ==> |msg| == |o.field| + |NotFoundSuffix| && msg[..|o.field|] == o.field
    ensures |msg| >= |NotFoundSuffix|
    ensures msg[|msg| - |NotFoundSuffix|..] == NotFoundSuffix <==> o.MissingField?
  {
    if o.NoData? then NoDataMessage else o.field + NotFoundSuffix
  }

  const NoDataMessage := "データが送信されていません"
  const NotFoundSuffix := "が見つかりません"

  /** Distinct missing fields get distinct messages, so a client can tell which field to fix. */
  lemma ErrorMessageInjective(a: string, b: string)
    ensures ErrorMessage(MissingField(a)) == ErrorMessage(MissingField(b)) ==> a == b
  {
    var ma, mb := ErrorMessage(MissingField(a)), ErrorMessage(MissingField(b));
    if ma == mb {
      assert a == ma[..|a|] == mb[..|b|] == b;
    }
  }

  /** A body that `/save_profile` stores: a non-empty object holding every required field. */
  predicate Accepted(body: Json) {
    body.JObj? && forall k :: 0 <= k < |RequiredFields| ==> RequiredFields[k] in body.fields
  }

  /** `/save_profile`: reject a falsy body, then the first missing required field; a list or
      string body that passes the checks raises on `data['saved_at'] = …`. An accepted
      object is stored with `saved_at` set, replacing whatever was stored before. */
  function SaveProfile(stored: Option<Profile>, body: Json, now: string): (r: (SaveOutcome, Option<Profile>))
    ensures !Truthy(body) ==> r == (NoData, stored)
    ensures r.0.NoData? <==> !Truthy(body)
    ensures r.0.Saved? <==> Accepted(body)
    ensures body.JObj? && Truthy(body) && !Accepted(body) ==> r.0.MissingField?
    ensures r.0.Crashed? ==> !body.JObj?
    ensures r.0.Crashed? ==>
      forall k :: 0 <= k < |RequiredFields| ==> Contains(body, RequiredFields[k]) != Some(false)
    ensures r.0.Saved? ==>
      && r.1 == Some(r.0.data)
      && r.0.data.Keys == body.fields.Keys + {SavedAtKey}
      && r.0.data[SavedAtKey] == JStr(now)
      && forall key :: key in body.fields && key != SavedAtKey ==> r.0.data[key] == body.fields[key]
    ensures !r.0.Saved? ==> r.1 == stored
    ensures r.0.MissingField? ==> Truthy(body) && exists k ::
      && 0 <= k < |RequiredFields| && RequiredFields[k] == r.0.field
      && Contains(body, RequiredFields[k]) == Some(false)
      && forall j :: 0 <= j < k ==> Contains(body, RequiredFields[j]) == Some(true)
  {
    if !Truthy(body) then
      assert body.JObj? ==> RequiredFields[0] !in body.fields;
      (NoData, stored)
    else
      assert body.JObj? ==>
        !FirstMissing(body, RequiredFields).AllPresent? || Accepted(body);
      match FirstMissing(body, RequiredFields)
      case Raised => (Crashed, stored)
      case Missing(f) => (MissingField(f), stored)
      case AllPresent =>
        match body
        case JObj(m) =>
          var data := m[SavedAtKey := JStr(now)];
          (Saved(data), Some(data))
        case _ => (Crashed, stored)
  }

  /** What `/get_profile` answers: 200 with the stored object, or 404. */
  datatype GetOutcome = Found(data: Profile) | NotFound

  /** `/get_profile`: the stored object, or 404 when nothing has been saved. */
  function GetProfile(stored: Option<Profile>): (r: GetOutcome)
    ensures r.NotFound? <==> stored.None?
    ensures r.Found? ==> Some(r.data) == stored
  {
    match stored
    case None => NotFound
    case Some(p) => Found(p)
  }

  // ---------------------------------------------------------------------------------------
  // Sequences of saves

  /** The stored state after a run of `/save_profile` calls, each with its own body and time,
      applied one after another. */
  function Replay(stored: Option<Profile>, calls: seq<(Json, string)>): Option<Profile>
    decreases |calls|
  {
    if |calls| == 0 then stored
    else Replay(SaveProfile(stored, calls[0].0, calls[0].1).1, calls[1..])
  }

  /** The object stored by the last accepted call of a run, if any call was accepted. */
  function LastAccepted(calls: seq<(Json, string)>): Option<Profile>
    decreases |calls|
  {
    if |calls| == 0 then None
    else
      var (body, now) := calls[|calls| - 1];
      if Accepted(body) then Some(Stamped(body, now))
      else LastAccepted(calls[..|calls| - 1])
  }

  /** The object an accepted body is stored as. */
  function Stamped(body: Json, now: string): Profile
    requires body.JObj?
  {
    body.fields[SavedAtKey := JStr(now)]
  }

  lemma SaveAccepted(stored: Option<Profile>, body: Json, now: string)
    requires Accepted(body)
    ensures SaveProfile(stored, body, now).1 == Some(Stamped(body, now))
  {
    assert Truthy(body) by {
      assert RequiredFields[0] in body.fields;
    }
  }

  lemma {:induction false} ReplaySnoc(stored: Option<Profile>, calls: seq<(Json, string)>, call: (Json, string))
    ensures Replay(stored, calls + [call]) == SaveProfile(Replay(stored, calls), call.0, call.1).1
    decreases |calls|
  {
    if |calls| > 0 {
      assert (calls + [call])[1..] == calls[1..] + [call];
      ReplaySnoc(SaveProfile(stored, calls[0].0, calls[0].1).1, calls[1..], call);
    }
  }

  /** Only the last accepted save counts: after any run of saves the store holds what the
      last accepted call stored, or what it held before when every call was rejected. */
  lemma {:induction false} ReplayKeepsLastAccepted(stored: Option<Profile>, calls: seq<(Json, string)>)
    ensures Replay(stored, calls) == if LastAccepted(calls).Some? then LastAccepted(calls) else stored
    decreases |calls|
  {
    if |calls| > 0 {
      var init, last := calls[..|calls| - 1], calls[|calls| - 1];
      assert calls == init + [last];
      ReplaySnoc(stored, init, last);
      ReplayKeepsLastAccepted(stored, init);
      if Accepted(last.0) {
        SaveAccepted(Replay(stored, init), last.0, last.1);
      }
    }
  }

  /** `/get_profile` after a run of saves from an empty store: 404 until some save is
      accepted, then the last accepted object. */
  lemma GetAfterSaves(calls: seq<(Json, string)>)
    ensures GetProfile(Replay(None, calls)) ==
      match LastAccepted(calls)
      case None => NotFound
      case Some(p) => Found(p)
  {
    ReplayKeepsLastAccepted(None, calls);
  }

  /** An empty object is turned away before any field is looked at. */
  lemma EmptyObjectRejected(stored: Option<Profile>, now: string)
    ensures SaveProfile(stored, JObj(map[]), now) == (NoData, stored)
    ensures SaveStatus(NoData) == 400
    ensures ErrorMessage(NoData) == "データが送信されていません"
  {
  }

  /** A body missing several fields is told about the earliest one in check order. */
  lemma MissingFieldOrder(stored: Option<Profile>, now: string, v: Json)
    ensures SaveProfile(stored, JObj(map["nickname" := v, "trivia" := v]), now)
         == (MissingField("birthday"), stored)
    ensures SaveStatus(MissingField("birthday")) == 400
    ensures ErrorMessage(MissingField("birthday")) == "birthdayが見つかりません"
  {
    var body := JObj(map["nickname" := v, "trivia" := v]);
    assert "nickname" in body.fields && "birthday" !in body.fields;
    assert Truthy(body);
    assert RequiredFields[0] == "nickname" && RequiredFields[1..][0] == "birthday";
    assert FirstMissing(body, RequiredFields[1..]) == Missing("birthday");
    assert FirstMissing(body, RequiredFields) == Missing("birthday");
  }

  /** Every rejected object is answered with a 400 whose message begins with the name of a
      required field it lacks, every field checked before that one being present. */
  lemma RejectedObjectMessage(stored: Option<Profile>, body: Json, now: string)
    requires body.JObj? && Truthy(body) && !Accepted(body)
    ensures var o := SaveProfile(stored, body, now).0;
      && o.MissingField? && SaveStatus(o) == 400
      && exists k :: 0 <= k < |RequiredFields|
           && ErrorMessage(o)[..|RequiredFields[k]|] == RequiredFields[k]
           && RequiredFields[k] !in body.fields
           && forall j :: 0 <= j < k ==> RequiredFields[j] in body.fields
  {
    var o := SaveProfile(stored, body, now).0;
    var k :| 0 <= k < |RequiredFields| && RequiredFields[k] == o.field
      && Contains(body, RequiredFields[k]) == Some(false)
      && forall j :: 0 <= j < k ==> Contains(body, RequiredFields[j]) == Some(true);
    assert ErrorMessage(o)[..|RequiredFields[k]|] == RequiredFields[k];
  }
}

/** The card collection of the FastAPI service: each successful `/save_profile` appends one
    card document, `/get_user_profile` and `/get_otheruser_profiles` read them back, and
    `/heyplus` bumps a card's reaction counter. The Firestore collection is a sequence of
    cards in which "first" means first in the sequence. */
module CardStore {
  import opened Outcomes
  import opened Verdicts
  import Decimal

  /** An instant as `datetime.datetime.now()` would return it; only its identity matters. */
  type Timestamp = int

  /** Raw image bytes as the image backend returns them after base64 decoding. */
  type Bytes = seq<bv8>

  /** One stored card document. `hey` and `updatedAt` are absent until the first `/heyplus`. */
  datatype Card = Card(
    docId: string,        // the document id Firestore generated on `add`
    id: string,
    ver: int,
    nickname: string,
    birthday: string,
    birthplace: string,
    trivia: string,
    isTrue: Verdict,
    imageUrl: string,
    createdAt: Timestamp,
    hey: Option<int>,
    updatedAt: Option<Timestamp>)

  /** The `/save_profile` request body (`saveUserProfile`). */
  datatype SaveRequest = SaveRequest(
    nickname: string,
    birthday: string,
    birthplace: string,
    trivia: string,
    id: string,
    ver: int,
    hey: int)             // accepted by the request model but never stored

  /** A JSON reply with status 200, or an `HTTPException` with its status and detail. */
  datatype Response<T> = Ok(body: T) | HttpError(status: int, detail: string)

  /** The `/save_profile` reply: `{"status": "success", "image_url": …, "is_true": …}`. */
  datatype SaveReply = SaveReply(imageUrl: string, isTrue: Verdict)

  /** The `data` object of a `/get_user_profile` reply: the stored fields it echoes. */
  datatype ProfileView = ProfileView(
    nickname: string,
    birthday: string,
    birthplace: string,
    trivia: string,
    isTrue: Verdict,
    imageUrl: string,
    id: string,
    ver: int)

  /** The `/heyplus` reply: `{"status": "success", "id": …, "ver": …, "hey": …}`. */
  datatype HeyReply = HeyReply(id: string, ver: int, hey: int)

  const NotFound := "Profile not found"

  /** The two `where` filters every query applies: `id == id` and `ver == ver`. */
  predicate Matches(c: Card, id: string, ver: int) {
    c.id == id && c.ver == ver
  }

  function View(c: Card): ProfileView {
    ProfileView(c.nickname, c.birthday, c.birthplace, c.trivia, c.isTrue, c.imageUrl, c.id, c.ver)
  }

  /** Two cards that agree on everything but the reaction counter and its timestamp. */
  predicate SameExceptCounter(a: Card, b: Card) {
    a.(hey := b.hey, updatedAt := b.updatedAt) == b
  }

  // ---------------------------------------------------------------------------------------
  // Storage key

  /** The object name the card image is uploaded under: `cards/{id}_v{ver}.png`. */
  function StorageKey(id: string, ver: int): (key: string)
    ensures |key| > |"cards/" + id + "_v.png"|
    ensures key[..6] == "cards/" && key[|key| - 4..] == ".png"
  {
    "cards/" + id + "_v" + Decimal.IntToString(ver) + ".png"
  }

  // ---------------------------------------------------------------------------------------
  // /save_profile

  /** `/save_profile`: the verdict, the generated image, its upload under `StorageKey` and the
      Firestore `add` run in that order; the first one that raises turns into a 500 whose
      detail is that exception's text and nothing is written. Only when all four succeed is
      exactly one card appended, without a `hey` field. */
  function SaveProfile(
    cards: seq<Card>, req: SaveRequest,
    verdict: Result<Verdict, Fault>,
    image: Result<Bytes, Fault>,
    upload: (string, Bytes) -> Result<string, Fault>,
    added: Result<string, Fault>,
    now: Timestamp): (r: (Response<SaveReply>, seq<Card>))
    ensures r.0.Ok? <==>
      && verdict.Success? && image.Success?
      && upload(StorageKey(req.id, req.ver), image.value).Success?
      && added.Success?
    ensures r.0.HttpError? ==> r.0.status == 500 && r.1 == cards
    ensures verdict.Failure? ==> r.0.detail == Detail(verdict.error)
    ensures verdict.Success? && image.Failure? ==> r.0.detail == Detail(image.error)
    ensures verdict.Success? && image.Success? ==>
      var uploaded := upload(StorageKey(req.id, req.ver), image.value);
      && (uploaded.Failure? ==> r.0.detail == Detail(uploaded.error))
      && (uploaded.Success? && added.Failure? ==> r.0.detail == Detail(added.error))
    ensures r.0.Ok? ==>
      && |r.1| == |cards| + 1
      && r.1[..|cards|] == cards
      && var c := r.1[|cards|];
      && c.docId == added.value
      && c.id == req.id && c.ver == req.ver
      && c.nickname == req.nickname && c.birthday == req.birthday
      && c.birthplace == req.birthplace && c.trivia == req.trivia
      && c.isTrue == verdict.value
      && c.imageUrl == upload(StorageKey(req.id, req.ver), image.value).value
      && c.createdAt == now
      && c.hey == None && c.updatedAt == None
      && r.0.body == SaveReply(c.imageUrl, c.isTrue)
  {
    match verdict
    case Failure(e) => (HttpError(500, Detail(e)), cards)
    case Success(isTrue) =>
      match image
      case Failure(e) => (HttpError(500, Detail(e)), cards)
      case Success(bytes) =>
        match upload(StorageKey(req.id, req.ver), bytes)
        case Failure(e) => (HttpError(500, Detail(e)), cards)
        case Success(url) =>
          match added
          case Failure(e) => (HttpError(500, Detail(e)), cards)
          case Success(docId) =>
            var card := Card(docId, req.id, req.ver, req.nickname, req.birthday, req.birthplace,
                             req.trivia, isTrue, url, now, None, None);
            (Ok(SaveReply(url, isTrue)), cards + [card])
  }

  // ---------------------------------------------------------------------------------------
  // Point lookup

  /** The index of the first card at or after `from` that matches (`limit(1)`). */
  function FirstMatchFrom(cards: seq<Card>, id: string, ver: int, from: nat): (k: Option<nat>)
    requires from <= |cards|
    ensures k.Some? ==>
      && from <= k.value < |cards| && Matches(cards[k.value], id, ver)
      && forall j :: from <= j < k.value ==> !Matches(cards[j], id, ver)
    ensures k.None? ==> forall j :: from <= j < |cards| ==> !Matches(cards[j], id, ver)
    decreases |cards| - from
  {
    if from == |cards| then None
    else if Matches(cards[from], id, ver) then Some(from)
    else FirstMatchFrom(cards, id, ver, from + 1)
  }

  /** The first card of the collection that matches both `id` and `ver`, if any. */
  function FirstMatch(cards: seq<Card>, id: string, ver: int): (k: Option<nat>)
    ensures k.Some? ==>
      && k.value < |cards| && Matches(cards[k.value], id, ver)
      && forall j :: 0 <= j < k.value ==> !Matches(cards[j], id, ver)
    ensures k.None? <==> forall j :: 0 <= j < |cards| ==> !Matches(cards[j], id, ver)
  {
    FirstMatchFrom(cards, id, ver, 0)
  }

  /** `/get_user_profile`: the view of the first matching card, or 404. */
  function GetUserProfile(cards: seq<Card>, id: string, ver: int): (r: Response<ProfileView>)
    ensures r.Ok? <==> exists j :: 0 <= j < |cards| && Matches(cards[j], id, ver)
    ensures r.HttpError? ==> r == HttpError(404, NotFound)
    ensures r.Ok? ==> exists k ::
      && 0 <= k < |cards| && Matches(cards[k], id, ver)
      && (forall j :: 0 <= j < k ==> !Matches(cards[j], id, ver))
      && r.body == View(cards[k])
  {
    match FirstMatch(cards, id, ver)
    case None => HttpError(404, NotFound)
    case Some(k) => Ok(View(cards[k]))
  }

  // ---------------------------------------------------------------------------------------
  // Batch lookup

  /** Every card matching `id` and `ver`, in collection order (one unlimited query). */
  function AllMatches(cards: seq<Card>, id: string, ver: int): (r: seq<Card>)
    ensures |r| <= |cards|
    decreases |cards|
  {
    if |cards| == 0 then []
    else
      var last := cards[|cards| - 1];
      AllMatches(cards[..|cards| - 1], id, ver) + (if Matches(last, id, ver) then [last] else [])
  }

  /** A card is among the matches exactly when it is stored and matches. */
  lemma {:induction false} AllMatchesMembership(cards: seq<Card>, id: string, ver: int, c: Card)
    ensures c in AllMatches(cards, id, ver) <==> c in cards && Matches(c, id, ver)
    decreases |cards|
  {
    if |cards| > 0 {
      var init, last := cards[..|cards| - 1], cards[|cards| - 1];
      assert cards == init + [last];
      AllMatchesMembership(init, id, ver, c);
    }
  }

  /** The reference result of a batch lookup: each target's matches, concatenated in target
      order. */
  function Gather(cards: seq<Card>, targets: seq<(string, int)>): (r: seq<Card>)
    decreases |targets|
  {
    if |targets| == 0 then []
    else
      var t := targets[|targets| - 1];
      Gather(cards, targets[..|targets| - 1]) + AllMatches(cards, t.0, t.1)
  }

  lemma AllMatchesStep(cards: seq<Card>, j: nat, id: string, ver: int)
    requires j < |cards|
    ensures AllMatches(cards[..j + 1], id, ver)
         == AllMatches(cards[..j], id, ver) + (if Matches(cards[j], id, ver) then [cards[j]] else [])
  {
    assert cards[..j + 1][..j] == cards[..j];
  }

  /** Gathering one more target appends that target's matches. */
  lemma GatherSnoc(cards: seq<Card>, s: seq<(string, int)>, t: (string, int))
    ensures Gather(cards, s + [t]) == Gather(cards, s) + AllMatches(cards, t.0, t.1)
  {
    assert (s + [t])[..|s|] == s;
  }

  /** `/get_otheruser_profiles`: one query per `(id, ver)` item of `targets` (the request's
      dict in its iteration order), appending every document each query streams. */
  method GetOtherUserProfiles(cards: seq<Card>, targets: seq<(string, int)>) returns (results: seq<Card>)
    ensures results == Gather(cards, targets)
  {
    results := [];
    var i := 0;
    while i < |targets|
      invariant 0 <= i <= |targets|
      invariant results == Gather(cards, targets[..i])
    {
      var (userId, ver) := targets[i];
      var j := 0;
      ghost var before := results;
      while j < |cards|
        invariant 0 <= j <= |cards|
        invariant results == before + AllMatches(cards[..j], userId, ver)
      {
        AllMatchesStep(cards, j, userId, ver);
        if Matches(cards[j], userId, ver) {
          results := results + [cards[j]];
        }
        j := j + 1;
      }
      assert cards[..j] == cards;
      assert targets[..i + 1] == targets[..i] + [targets[i]];
      GatherSnoc(cards, targets[..i], targets[i]);
      i := i + 1;
    }
    assert targets[..i] == targets;
  }

  // ---------------------------------------------------------------------------------------
  // /heyplus

  /** `/heyplus`: read the first matching card's `hey` (0 when absent), add `pushedhey` and
      write the sum back together with `updated_at`, or answer 404 and write nothing. */
  function HeyPlus(cards: seq<Card>, id: string, ver: int, pushedhey: int, now: Timestamp)
    : (r: (Response<HeyReply>, seq<Card>))
    ensures r.0.HttpError? <==> forall j :: 0 <= j < |cards| ==> !Matches(cards[j], id, ver)
    ensures r.0.HttpError? ==> r.0 == HttpError(404, NotFound) && r.1 == cards
    ensures r.0.Ok? ==>
      var k := FirstMatch(cards, id, ver).value;
      && |r.1| == |cards|
      && (forall j :: 0 <= j < |cards| && j != k ==> r.1[j] == cards[j])
      && SameExceptCounter(cards[k], r.1[k])
      && r.1[k].hey == Some(cards[k].hey.GetOr(0) + pushedhey)
      && r.1[k].updatedAt == Some(now)
      && r.0.body == HeyReply(id, ver, cards[k].hey.GetOr(0) + pushedhey)
  {
    match FirstMatch(cards, id, ver)
    case None => (HttpError(404, NotFound), cards)
    case Some(k) =>
      var newHey := cards[k].hey.GetOr(0) + pushedhey;
      (Ok(HeyReply(id, ver, newHey)), cards[k := cards[k].(hey := Some(newHey), updatedAt := Some(now))])
  }

  /** The effect of `/heyplus` on a collection that holds a match, spelled out at the first
      match. */
  lemma HeyPlusAt(cards: seq<Card>, id: string, ver: int, pushedhey: int, now: Timestamp)
    requires FirstMatch(cards, id, ver).Some?
    ensures var k := FirstMatch(cards, id, ver).value;
      var newHey := cards[k].hey.GetOr(0) + pushedhey;
      HeyPlus(cards, id, ver, pushedhey, now)
        == (Ok(HeyReply(id, ver, newHey)), cards[k := cards[k].(hey := Some(newHey), updatedAt := Some(now))])
  {
  }

  /** Extending a collection keeps the first match of any query that already had one. */
  lemma FirstMatchExtend(cards: seq<Card>, longer: seq<Card>, id: string, ver: int)
    requires |cards| <= |longer| && longer[..|cards|] == cards
    requires FirstMatch(cards, id, ver).Some?
    ensures FirstMatch(longer, id, ver) == FirstMatch(cards, id, ver)
  {
    var k := FirstMatch(cards, id, ver).value;
    assert longer[k] == cards[k];
  }
}

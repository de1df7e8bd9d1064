# Trivia cards: a Dafny model

This project models the decision and bookkeeping logic of a small trivia-card service.
A user submits a trivia claim with some profile fields. A language model judges the claim.
An image is generated and uploaded. A "card" document is then appended to a Firestore
collection. Other users can fetch cards and send "hey" reactions to them. A second,
simpler Flask service keeps one profile in a file.

Every network call is replaced by a plain input value:

- the language model's reply, or the exception it raised;
- the generated image bytes;
- the upload, as a function from object name and bytes to a public URL;
- the document id Firestore assigns on `add`;
- the current time.

The model then states what the code decides from those values.

Modules:

- `Outcomes`: `Option` and `Result`.
- `Decimal`: Python's `str(int)`, with a parser proving that the rendering is injective.
- `Verdicts`: `trivia_trueorfalse`. The reply is stripped with Python's `str.strip()`,
  using Python's full `str.isspace()` whitespace set. It is then compared exactly and
  case-sensitively with `"True"` and `"False"`, giving `IsTrue`, `IsFalse` or `Undecided`
  (Python's `True`, `False`, `None`). Both copies of the function
  (`apiResponse.py` and `back/trivia_trueorfalse.py`) map replies the same way. Besides prompt
  text and logging, they differ in where the key comes from. `apiResponse.py:70` calls
  `load_dotenv(override=True)`, so a `.env` value replaces `GEMINI_API_KEY` from the
  environment. `back/trivia_trueorfalse.py:6` calls `load_dotenv()`, which keeps the
  environment's value. When both set the key, the two copies read different keys. The model
  takes the key as an opaque input, so it covers both.
- `CardStore`: the FastAPI endpoints `/save_profile`, `/get_user_profile`,
  `/get_otheruser_profiles` and `/heyplus`. The collection is a `seq<Card>`, and
  "first match" means first in the sequence.
- `CardProperties`: lemmas relating several calls on the collection.
- `ProfileStore`: the Flask `/save_profile` and `/get_profile` endpoints. The profile file is
  modelled as an `Option<Profile>`. The request body is a JSON value, and Python's `in` and
  truthiness are modelled for every JSON type.

Points where the code does less than a reader might expect:

- The increment is not atomic. `hey_plus` reads the counter, adds, and writes it back.
  `Increment` is imported but never used.
- Nothing keeps the counter non-negative or monotone. `pushedhey` may be any integer.
- A card is stored even when the verdict is `None` (`Undecided`).
- The code never checks that the trivia text or the id is non-empty before calling the model.
- The storage key is `cards/{id}_v{ver}.png`. The nickname-and-timestamp key survives only
  as a comment, and the timestamp it would have used is computed but never used.

## Model

| member | source | states |
|---|---|---|
| `Verdicts.Classify` | apiResponse.py:69-95 | A missing or empty API key fails with "GEMINI_API_KEY is not set" whatever the model would reply. Otherwise a raised call propagates its error, and a reply maps through `ParseVerdict`. |
| `Verdicts.KeyCheckedBeforeCall` | back/trivia_trueorfalse.py:8-10 | Without a usable key, the outcome is the same for every reply and for every failure of the call. The check comes before any use of the model. |
| `Verdicts.ParseVerdict` | apiResponse.py:90-95 | The verdict is True exactly when the stripped reply is "True", and False exactly when it is "False". Anything else is undecided. `VerdictTrueIff` and `VerdictFalseIff` restate this in terms of the raw reply. |
| `Verdicts.Strip` | apiResponse.py:90 | The stripped reply neither starts nor ends with whitespace, and it is no longer than the reply. |
| `Verdicts.StripIsSlice` | back/trivia_trueorfalse.py:31 | The stripped reply is a slice of the reply. Everything before and after that slice is whitespace. |
| `Verdicts.StripUnique` | back/trivia_trueorfalse.py:31 | Any slice with a whitespace prefix and suffix before and after it, and no whitespace at its own ends, is exactly what strip returns. |
| `Verdicts.StripPadded` | back/trivia_trueorfalse.py:31 | Whitespace added on either side of a reply never changes what it strips to. |
| `Verdicts.ParsePadded` | back/trivia_trueorfalse.py:31-43 | The verdict of a reply padded with whitespace equals the verdict of the bare reply. |
| `Verdicts.StripsToIff` | back/trivia_trueorfalse.py:31-43 | A reply strips to a token with no surrounding whitespace exactly when the reply is that token padded with whitespace. |
| `Verdicts.VerdictTrueIff` | apiResponse.py:90-92 | The verdict is True if and only if the reply is exactly "True" with optional whitespace around it. |
| `Verdicts.VerdictFalseIff` | apiResponse.py:93-94 | The verdict is False if and only if the reply is exactly "False" with optional whitespace around it. |
| `Verdicts.WrongCaseUndecided` | apiResponse.py:91-95 | The comparison is case-sensitive. "true", "TRUE" and "false" are undecided. |
| `Verdicts.MalformedUndecided` | back/trivia_trueorfalse.py:42-43 | "True.", a two-line reply and the empty reply are undecided. |
| `Verdicts.PaddedFalseDecided` | back/trivia_trueorfalse.py:38-40 | " False\n" is read as False. |
| `Decimal.IntToString` | apiResponse.py:173 | The rendered version is non-empty and made of digits and '-'. It starts with '-' exactly for negative versions. |
| `Decimal.ParseIntToString` | apiResponse.py:173 | Reading the rendered version back gives the version. |
| `Decimal.IntToStringInjective` | apiResponse.py:173 | Distinct versions render differently. |
| `CardStore.StorageKey` | apiResponse.py:171-173 | The object name starts with "cards/", ends with ".png", and is longer than its fixed parts plus the id. |
| `CardProperties.StorageKeyInjective` | apiResponse.py:173 | Two (id, ver) pairs share an object name only if they are the same pair. Uploads for different cards cannot collide. |
| `CardProperties.StorageKeyExample` | apiResponse.py:173 | User "u1", version 1 uploads to "cards/u1_v1.png". |
| `CardStore.SaveProfile` | apiResponse.py:159-196 | A card is appended if and only if the verdict, the image, the upload under `StorageKey(id, ver)` and the `add` all succeed. Otherwise the reply is a 500 carrying the text of the first stage that failed, for each of the four stages, and the collection is unchanged. On success exactly one card is added. Its fields are the request's and the stages' results, it has no `hey`, and the reply repeats its image URL and verdict. |
| `CardProperties.SaveKeyIgnoresDisplayFields` | apiResponse.py:171-193 | Two requests with the same id and ver get the same reply from the same stage results, whatever their nickname, birthday, birthplace, trivia, `hey` or time. |
| `CardProperties.MissingKeyWritesNothing` | apiResponse.py:159-196 | With no API key, saving fails with a 500 "GEMINI_API_KEY is not set" and leaves the collection unchanged, whatever the later stages would do. |
| `CardProperties.FailedSaveInvisible` | apiResponse.py:161-196 | After a failed save, every point lookup answers as it did before. |
| `CardProperties.SaveThenGetFresh` | apiResponse.py:177-235 | After a successful save of an (id, ver) that had no card, the point lookup returns the new card's fields. |
| `CardProperties.ResaveKeepsFirst` | apiResponse.py:205-221 | Saving an (id, ver) that already has a card adds a duplicate. The point lookup still returns the card that comes first in the sequence, which is the earlier one. |
| `CardStore.FirstMatch` | apiResponse.py:205-213 | The result is the index of a card that matches both id and ver, with no earlier match. It is absent exactly when no card matches. |
| `CardStore.GetUserProfile` | apiResponse.py:201-240 | The lookup succeeds if and only if some card matches. It then returns the view of the first match. Otherwise it is a 404 "Profile not found". |
| `CardStore.AllMatchesMembership` | apiResponse.py:248-258 | A card is among one target's results if and only if it is stored and matches that target's id and ver. |
| `CardStore.GetOtherUserProfiles` | apiResponse.py:242-264 | The loop returns the concatenation, in target order, of all cards matching each target, each in collection order. |
| `CardProperties.GatherAppend` | apiResponse.py:247-258 | The batch result over two runs of targets is the concatenation of the two results. |
| `CardProperties.GatherMembership` | apiResponse.py:247-258 | A card is in the batch result if and only if it is stored and matches some target. |
| `CardProperties.MissingTargetContributesNothing` | apiResponse.py:247-258 | A target that matches no card can be dropped without changing the result. The result's length need not equal the number of targets. |
| `CardProperties.BatchLookupMembership` | apiResponse.py:242-264 | The endpoint's result contains a card if and only if the card is stored and matches a target. |
| `CardProperties.BatchWithOneMissingTarget` | apiResponse.py:247-258 | For two targets where only the first exists, the result is exactly the first target's cards. |
| `CardStore.HeyPlus` | apiResponse.py:271-320 | With no match, the reply is a 404 and nothing changes. Otherwise only the first match changes. Its `hey` becomes (stored `hey`, or 0) plus `pushedhey` and its `updated_at` becomes the time. Every other field and every other card is unchanged, and the reply reports the new count. |
| `CardProperties.HeyPlusKeepsFirstMatch` | apiResponse.py:302-305 | A reaction never changes which card any query finds first. |
| `CardProperties.HeyPlusInvisibleToLookup` | apiResponse.py:302-305 | A reaction does not change any point lookup's reply. |
| `CardProperties.HeyPlusTwice` | apiResponse.py:295-305 | Two reactions one after the other raise the count by the sum of both amounts. The second reply reports that total. |
| `CardProperties.RepeatAdds` | apiResponse.py:295-305 | n reactions of the same amount, one after the other, raise the count by n times the amount. For example, 50 calls of 1 on a fresh card give 50. |
| `ProfileStore.Contains` | back/app.py:30 | The membership test raises exactly on numbers, booleans and null. On an object it tests the keys. |
| `ProfileStore.FirstMissing` | back/app.py:28-31 | The check passes if and only if every field is present. Otherwise it names the first absent field in check order, with every earlier field present. It reports a raise only when the test on the first field raises. |
| `ProfileStore.SaveProfile` | back/app.py:18-46 | The reply is "no data" (400) exactly when the body is falsy, before any field check. A save is stored if and only if the body is an object holding all four required fields. It then stores exactly the body's fields plus `saved_at` and replaces the previous profile. A truthy object lacking a field is always a 400 naming the first missing field in check order. A 500 arises only for a non-object body that fails no field check. A string or list body lacking a field gets the same 400 as an object. Nothing is stored on any rejection. |
| `ProfileStore.SaveStatus` | back/app.py:25-46 | The status is 200 exactly for a stored save and 500 exactly for a crash. Both rejections, no data and a missing field, are 400. |
| `ProfileStore.ErrorMessage` | back/app.py:25-31 | A missing-field message is the field's name followed by "が見つかりません", so the field can be read back from it. The no-data message never ends with that suffix. |
| `ProfileStore.ErrorMessageInjective` | back/app.py:31 | Different missing fields get different messages. |
| `ProfileStore.RejectedObjectMessage` | back/app.py:28-31 | Every rejected object gets a 400 whose message begins with a required field it lacks, and every field checked before that one is present. |
| `ProfileStore.GetProfile` | back/app.py:48-59 | The reply is 404 exactly when nothing is stored. Otherwise it is the stored object. |
| `ProfileStore.ReplayKeepsLastAccepted` | back/app.py:34-38 | After any run of saves, the store holds the last accepted save's object. If every save was rejected, it holds what it held before. |
| `ProfileStore.GetAfterSaves` | back/app.py:48-59 | Starting from an empty store, `/get_profile` is 404 until a save is accepted. After that it returns the last accepted object. |
| `ProfileStore.EmptyObjectRejected` | back/app.py:24-25 | `{}` is rejected with 400 "データが送信されていません" and nothing is stored. |
| `ProfileStore.MissingFieldOrder` | back/app.py:28-31 | A body with only nickname and trivia is told "birthdayが見つかりません" with a 400, since birthday is checked before birthplace. |

## Left out

- Network clients are left out: the Gemini calls, the prompt texts, and the Stable Diffusion request (its payload, negative prompt, steps 35, 512×512 size, 180 s timeout and base64 decoding). Their outcomes are parameters.
- The Firebase Storage upload and `make_public` are left out. The upload is an opaque function from object name and bytes to a URL.
- Firestore's real ordering is not modelled. A `.limit(1)` query without `order_by` returns the match with the lowest document id, and generated ids are random. "First" is first in the sequence.
- CardProperties.ResaveKeepsFirst: holds for sequence order only. In Firestore the re-saved duplicate may have the lower document id, and then the real lookup and `/heyplus` switch to the new card.
- Exceptions raised by the Firestore queries themselves are not modelled. They are the 500 paths of `/get_user_profile`, `/get_otheruser_profiles` and `/heyplus`, and those queries are assumed to succeed.
- CardStore.HeyPlus: concurrent calls are not modelled. The read-then-write can lose an update when two calls interleave, and a sequential model cannot express that. The contract holds only for calls that do not overlap.
- CardStore.HeyPlus: Firestore's 64-bit integer range is not modelled. The counter is an unbounded integer.
- Timestamps are left out as values. `datetime.now()` is an opaque parameter, and the unused timestamp at `apiResponse.py:171` is not modelled.
- Routing, CORS, pydantic coercion of request fields, `jsonable_encoder`, the constant `"status": "success"` entries and the health endpoints are not modelled.
- In `back/app.py`, the constant reply texts are not modelled. These are the success message "プロフィールを保存しました" (`back/app.py:41`) and the 404 message "プロフィールが見つかりません" (`back/app.py:53`). `Saved` carries only the stored object, and `NotFound` carries no text.
- In `back/app.py`, file I/O and its failures are not modelled. These are the 500 paths of `open`, `json.dump` and `json.load`. A profile file left over from an earlier run is covered only by the arbitrary starting state.
- In `back/app.py`, `get_json` failures on a non-JSON request are not modelled.
- ProfileStore.Json: JSON numbers are integers only, so `0.0` as a falsy body is not covered. Object keys are a map, so key order is not kept.
- Firebase initialisation and the ad hoc scripts are not part of this model: `databaseConnect.py`, `back/firebase/*.py`, `back/main.py`, `back/attribute_Image.py`, `back/generateImage.py`, `back/generate_prompt.py`, `back/generate_searchword.py` and `back/test/*.py`.

# Designer matching, modelled in Dafny

This project models the matching core of the OrbitiveXR campaign/designer
service (`backend/main.py`; `main.py` is a byte-identical copy with the same
line numbers). A client submits a campaign: budget, ambiance, platform,
interactivity level, visual style and timeline. The service scores every
designer profile against it on a fixed rubric. It returns the designers
whose score reaches a threshold, highest score first.

The core has three parts, each a Dafny module:

- **ListCodec**: `deserialize_list` and `serialize_list`. A designer's
  scene tags, export formats and visual metadata are stored as JSON text.
  They may also reach the scorer as lists already. `deserialize_list`
  never fails: `None`, blank text, undecodable text and values of any other
  type all become the empty list.
  - It rests on two supporting modules. **PyString** models `str.strip()`
    (Python's whitespace set) and Python's lexicographic `<=` on `str`.
    **Json** models `json.dumps` of a list of strings (ASCII escapes,
    surrogate pairs, `", "` separator) and `json.loads` of an array of
    strings.
- **Scorer**: `calculate_match_score`. Six all-or-nothing criteria are
  worth 20, 20, 15, 15, 15 and 10 points. Five times the past performance
  score is added on top. Text fields are tested by Python truthiness. The
  rate and the interactivity levels are tested by `is not None`.
- **Selector**: the selection loop of `match_designers`.
  - `MatchDesigners` is a method over an `array` of designer rows. It
    overwrites each row's three list fields in place, scores the row, and
    keeps its entry when the score is at least the threshold. It then sorts
    the kept entries by descending score with a stable insertion sort, since
    Python's `list.sort` is stable also with `reverse=True`.
  - A missing campaign is a `CampaignNotFound` failure. This is distinct
    from an empty success.

**Records** holds the campaign and designer records, and **Wrappers** holds
`Option` and `Result`.

The campaign lookup and the designer rows are parameters. The database,
the HTTP layer and the clock are not modelled.

## Model

| member | source | states |
|---|---|---|
| ListCodec.DeserializeList | backend/main.py:110-133 | the normaliser; what it returns is stated by the lemmas below: `[]` for `None`, other types, blank text and undecodable text, a list unchanged, otherwise exactly the decoding of the stripped text, and the inverse of `SerializeList` |
| ListCodec.NoValueNoElements | backend/main.py:117-133 | `None`, or a value that is neither a list nor a string, yields `[]` |
| ListCodec.ListIsIdentity | backend/main.py:120-121 | a list is returned unchanged |
| ListCodec.BlankTextIsEmpty | backend/main.py:123-126 | text that is empty or all whitespace yields `[]` |
| ListCodec.UndecodableTextIsEmpty | backend/main.py:127-131 | text that does not decode after stripping yields `[]`; the decode failure is absorbed |
| ListCodec.ElementsHaveASource | backend/main.py:110-133 | a non-empty result comes only from a list, or from text whose stripped form decodes to exactly that result |
| ListCodec.DeserializeIdempotent | backend/main.py:117-133 | normalising a normalised value (passed back as a list) changes nothing |
| ListCodec.SerializeList | backend/main.py:106-107 | the stored text is a JSON array: at least two characters, opening `[` and closing `]` |
| ListCodec.SerializeNone | backend/main.py:106-107 | `serialize_list(None)` stores `"[]"` |
| ListCodec.DeserializeSerialize | backend/main.py:106-133 | `deserialize_list(serialize_list(xs)) == xs` for every list of strings |
| ListCodec.DeserializePaddedSerialize | backend/main.py:124-128 | whitespace around stored JSON text is stripped before decoding, so the round trip still holds |
| Json.Dumps | backend/main.py:107 | the text is a JSON array, opening `[` and closing `]`; `Json.LoadsDumps` proves `Loads` reads it back |
| Json.Loads | backend/main.py:128 | decodes a JSON array of strings, `None` where Python raises; `Json.LoadsDumps` proves it inverts `Dumps` |
| Json.LoadsDumps | backend/main.py:107 | `json.loads(json.dumps(xs)) == xs` for every list of strings, escapes and surrogate pairs included |
| Json.Hex4RoundTrip | backend/main.py:107 | the four hex digits of a `\u` escape read back as the code unit written |
| Json.EscapeCharRoundTrip | backend/main.py:107 | every character `json.dumps` escapes reads back as that character; a character it writes as itself is neither `"` nor a control character |
| Json.AstralEscapeRoundTrip | backend/main.py:107 | a character beyond U+FFFF written as a surrogate pair reads back as one character |
| Json.StringBodyRoundTrip | backend/main.py:107 | an escaped string followed by the closing quote decodes to the string and leaves the rest |
| Json.ElementsRoundTrip | backend/main.py:107 | the elements of a dumped list, up to `]`, decode to the list |
| PyString.Strip | backend/main.py:124 | `str.strip()`; `StripShape`, `StripEmptyIffBlank`, `StripIdempotent` and `StripPadded` state what it removes |
| PyString.StripShape | backend/main.py:124 | `strip` leaves a slice between an all-whitespace prefix and an all-whitespace suffix, neither starting nor ending with whitespace |
| PyString.StripEmptyIffBlank | backend/main.py:124-126 | the stripped text is empty exactly when every character is whitespace |
| PyString.StripIdempotent | backend/main.py:124 | stripping twice is stripping once |
| PyString.StripPadded | backend/main.py:124 | whitespace around an untrimmed non-empty text is exactly what is stripped |
| PyString.LessOrEqual | backend/main.py:206 | Python's `<=` on `str`; `LessOrEqualIsLex` ties it in both directions to the prefix-or-first-difference definition, and the four order lemmas make it a total order |
| PyString.LessOrEqualIsLex | backend/main.py:206 | Python's `<=` on `str` holds exactly when the first is a prefix of the second or the first difference is smaller in the first |
| PyString.LessOrEqualAfterCommonPrefix | backend/main.py:206 | a shared prefix does not change the order |
| PyString.LessOrEqualReflexive | backend/main.py:206 | the string order is reflexive |
| PyString.LessOrEqualTotal | backend/main.py:206 | the string order is total |
| PyString.LessOrEqualAntisymmetric | backend/main.py:206 | the string order is antisymmetric |
| PyString.LessOrEqualTransitive | backend/main.py:206 | the string order is transitive |
| Scorer.MatchScore | backend/main.py:183-211 | the score minus the performance bonus lies between 0 and 95 |
| Scorer.RubricTotal | backend/main.py:185-207 | the six criterion weights sum to 95 |
| Scorer.ScoreIsRubricSum | backend/main.py:183-211 | the score is the sum of the six criteria's all-or-nothing points plus the performance bonus |
| Scorer.ScoreBounds | backend/main.py:184-211 | without a truthy performance score the score is in [0, 95]; with a performance score in [0, 1] it is in [0, 100] |
| Scorer.BudgetCriterion | backend/main.py:186-187 | the budget adds 20 exactly when the rate is present and the budget is at least the rate |
| Scorer.RaisingRateNeverHelps | backend/main.py:186-187 | raising the rate, all else fixed, never raises the score |
| Scorer.PricedOut | backend/main.py:186-187 | raising the rate past the budget costs exactly 20 |
| Scorer.AmbianceCriterion | backend/main.py:189-191 | ambiance adds 20 exactly when the wanted mood is non-empty and one of the normalised scene tags |
| Scorer.PlatformCriterion | backend/main.py:193-195 | platform adds 15 exactly when the wanted platform is non-empty and one of the normalised export formats |
| Scorer.StyleCriterion | backend/main.py:201-203 | style adds 15 exactly when the wanted style is non-empty and one of the normalised visual metadata tags |
| Scorer.EmptyTagEarnsNothing | backend/main.py:190 | an empty wanted ambiance earns nothing even when `""` is a scene tag |
| Scorer.TagsAreCaseSensitive | backend/main.py:190 | membership is exact: `"Calm"` does not match `"calm"`, and the example then scores 79 instead of 99 |
| Scorer.InteractivityCriterion | backend/main.py:197-199 | interactivity adds 15 exactly when both levels are present and the designer's is at least the wanted one |
| Scorer.ZeroInteractivityCounts | backend/main.py:197-199 | presence, not truthiness: level 0 against a wanted 0 earns 15 |
| Scorer.TimelineCriterion | backend/main.py:205-207 | timeline adds 10 exactly when both texts are non-empty and availability is lexicographically at most the timeline |
| Scorer.ZeroPerformanceIsAbsent | backend/main.py:209-210 | a performance score of 0.0 scores exactly like a missing one |
| Scorer.PerformanceCriterion | backend/main.py:209-210 | a present, non-zero performance score adds five times itself, uncapped |
| Scorer.ScoreSeesNormalisedLists | backend/main.py:189-203 | the score depends on the list fields only through their normalised lists |
| Scorer.StoredListsScoreAlike | backend/main.py:106-203 | list fields stored as JSON text score the same as the lists themselves |
| Scorer.WorkedExample | backend/main.py:183-211 | budget 500, rate 400, all tags matching, experience 5 against 3, dates in order, performance 0.8: 99; at rate 600: 79 |
| Selector.Normalised | backend/main.py:345-347 | after normalising, all three list fields hold lists |
| Selector.NormalisedIdempotent | backend/main.py:345-347 | normalising a normalised row changes nothing |
| Selector.NormalisedKeepsScore | backend/main.py:345-348 | normalising the fields before scoring does not change the score |
| Selector.Output | backend/main.py:352-362 | the response copies the id, name, rate, experience and availability, carries the three normalised lists, and reports the performance score, or 0.0 when it is missing or zero |
| Selector.Entry | backend/main.py:345-365 | an entry's score is the score of the row as stored, and its response carries the row's id and the `deserialize_list` values of its three list fields |
| Selector.Kept | backend/main.py:343-365 | the entries appended by the loop; `KeptSound` and `KeptComplete` state which |
| Selector.KeptOneMore | backend/main.py:344-365 | one more row appends its entry exactly when the entry's score reaches the threshold, and nothing otherwise |
| Selector.KeptSound | backend/main.py:348-365 | every kept entry reaches the threshold and comes from a row |
| Selector.KeptComplete | backend/main.py:348-349 | every row whose score reaches the threshold is kept; the boundary is inclusive |
| Selector.InsertPermutes | backend/main.py:367 | inserting an entry loses and adds nothing else |
| Selector.SortByScore | backend/main.py:367 | the stable descending sort; `SortPermutes`, `SortIsDescending` and `SortIsStable` state that it permutes, orders and keeps equal scores in input order |
| Selector.SortPermutes | backend/main.py:367 | the sort is a permutation |
| Selector.SortIsDescending | backend/main.py:367 | the sorted entries never increase in score |
| Selector.InsertStable | backend/main.py:367 | an inserted entry goes after the entries with its score that are already there |
| Selector.SortIsStable | backend/main.py:367 | for each score, the sorted entries with that score are in input order |
| Selector.InsertPass | backend/main.py:367 | one pass of the in-place sort inserts entry `i` into the sorted prefix and leaves the rest alone |
| Selector.SortByScoreDescending | backend/main.py:367 | the loop computes exactly the stable descending sort |
| Selector.MatchDesigners | backend/main.py:333-368 | the answer is the specified result; with a campaign, every row is normalised in place; without one, nothing changes |
| Selector.MatchResult | backend/main.py:333-368 | the answer of `match_designers`; `NotFoundIsNotEmpty`, `NoneQualifyIsEmpty` and `MatchResultCorrect` state it |
| Selector.NotFoundIsNotEmpty | backend/main.py:333-336 | a missing campaign is a not-found failure carrying its id; an existing campaign always gets a success, empty for no designers |
| Selector.NoneQualifyIsEmpty | backend/main.py:343-368 | when no designer reaches the threshold the answer is an empty success |
| Selector.MatchResultCorrect | backend/main.py:343-368 | exact selection: an entry is in the answer iff its designer's score reaches the threshold. The answer is descending, a permutation of the kept entries, and stable for equal scores |
| Selector.DefaultThresholdOrder | backend/main.py:169-171 | with the default threshold of 60, two designers that both reach it are answered highest score first, whatever their row order |

## Left out

- Database access (`init_db`, `get_db_connection`, the `SELECT`s and `INSERT`s): the campaign lookup is an `Option<Campaign>` parameter and the designer rows an array parameter.
- FastAPI routing and Pydantic validation of requests and responses: the threshold default of 60 is a constant, and the 404 becomes a `CampaignNotFound` failure carrying the campaign id. The error text is not modelled.
- Pydantic's rejection of a response record with a field it cannot validate (for instance a `None` rate for a kept designer) is not modelled; `DesignerOut` carries the optional fields as they are.
- The `TypeError`/`KeyError` paths of a missing or ill-typed `budget` or `rate_tier` are not modelled: records are well typed.
- `datetime.utcnow()` timestamps: `submittedAt` is carried but never read.
- Floating point: scores, budgets and rates are `real`, so the rounding of `performance_score * 5.0` and the ordering of NaN are not modelled.
- Json.Loads: JSON text that is valid but not an array of strings (a JSON string, a number, `null`, an object, an array holding other values) is treated as a decode failure, because the model's list type holds only strings. In Python the loop stores whatever was decoded in the row (lines 345-347), and the scorer decodes that value a second time (lines 189, 193, 201):
  - stored text that decodes to a number, `null`, a boolean or an object reaches the scorer as a value that is neither a list nor text, which it turns into `[]`, so it scores as in the model;
  - stored text that decodes to a string hands that string to the scorer, which strips and decodes it again. If the string is the JSON text of a list (`"[\"calm\"]"` written as a JSON string), the scorer sees `["calm"]` and can award the tag's points where the model awards none. If it is itself a JSON string literal, `in` tests substrings. If it is a number, `null` or a boolean, `in` raises `TypeError` (when the tag is truthy). If it is an object, `in` tests the object's keys. If it is not JSON, the scorer sees `[]`, as in the model;
  - a stored array mixing strings with other values keeps its strings in Python, where the model has `[]`;
  - a designer so stored that is kept would fail validation of the response record (lines 352-361), which is not modelled.
- Selector.NormalisedKeepsScore: holds for Python only when the stored text decodes to a list, is blank, or does not decode. Any other decoded value changes what the scorer does with the raw row, which the model does not capture: a string gives a substring test, an object a test of its keys, and a number, `null` or a boolean a `TypeError` once the tag is truthy. After normalising, the scorer sees that value as described above.
- Json.Loads: a `\u` escape naming an unpaired surrogate is rejected, because a Dafny `char` cannot hold a lone surrogate, while Python keeps it as a character.
- Python's dictionary rows are modelled as records in an array: a row is overwritten field by field in place. Aliasing between rows and other references to the same dictionary is not modelled.

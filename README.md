# ISS-Tracker core in Dafny

ISS-Tracker is a small Flask service in front of NASA's public ISS trajectory feed. The feed is an XML document of `state` elements, each a time-stamped position and velocity vector. On every request the service fetches and parses the whole feed, turns each `state` element into a dictionary, and then answers one of these:

- a page of the records (`/epochs-modified`);
- the records with a given epoch (`/epochs/<epoch>`);
- the speed of the record with a given epoch (`/epochs/<epoch>/speed`);
- a placeholder location for a given epoch (`/epochs/<epoch>/location`);
- the speed of the record nearest to the current time (`/now`).

This project models every step after the network fetch and the XML parse:

- **Record building** (module `Feed`, file `feed.dfy`): the nested loops of `fetch_iss_data`, written as a method with loop invariants. The method is proved equal to a specification function `Fetch`, and the lemmas are about `Fetch`:
  - **all or nothing:** you get one record per `state` element or no records at all;
  - **document order** is kept;
  - **last duplicate tag wins**;
  - **the first failing child decides the outcome:** an empty element raises TypeError, and a text `float()` rejects gives `[]`.
- **Speed** (module `Speed`, file `speed.dfy`):
  - `get_instantaneous_speed` is a function;
  - the loop of `calculate_average_speed` is a method, proved equal to `AverageSpeed`;
  - lemmas cover the empty-list result, the mean, non-negativity, the never-taken `ValueError` fallback and the two unit tests.
- **Queries** (module `Query`, file `query.dfy`): these expressions are inlined in the route handlers. Each one is a function with lemmas:
  - the slice `data[offset:offset+limit]`, with Python's index adjustment;
  - the epoch comprehension;
  - the `min`-by-key of `/now`, which returns the first nearest record.
- **Routes** (module `Routes`, file `routes.dfy`): the logic of the `/speed`, `/location` and `/now` handlers on a list of records, plus the two findings below.

Python's exceptions are explicit. A call evaluates to `Ok(value)` or to `Err(exc)`, where `exc` is one of `KeyError(key)`, `TypeError`, `ValueError` or `IndexError` (module `Values`, file `values.dfy`). A dictionary value is `Num(x)` (a float, modelled as a real) or `Text(s)` (a string). Keeping strings separate is what lets the model state that comparing a float with the route's epoch string is never true.

Three library calls become parameters:

- `float()` is `conv: string -> Option<real>`, where `None` stands for a ValueError;
- `math.sqrt` is `sqrt: real -> real`, assumed to be the non-negative square root where a lemma needs that (`Speed.IsSqrt`), and raising ValueError on a negative argument;
- `datetime.strptime` is `strptime: string -> Option<int>`, giving whole seconds.

The current time is the parameter `now`.

The record builder has a parameter `textTags`: the tags whose text is kept as a string rather than converted. The source as written is `textTags == {}`. The correction in "## Findings" is `textTags == {"epoch"}`.

In three places one might expect gentler handling than the code gives, and the model follows the code:

- **Malformed XML:** one might expect an empty result. In the code, `ET.ParseError` is not caught and escapes `fetch_iss_data`.
- **Missing velocity field:** one might expect `get_instantaneous_speed` to give 0.0. In the code it raises KeyError, because only ValueError is caught.
- **`/speed` with no match:** one might expect an explicit error answer. In the code, `epoch_data[0]` raises IndexError.

## Model

| member | source | states |
|---|---|---|
| Feed.FetchIssData | ISS-Tracker/iss_tracker.py:12-24 | The nested loops return exactly what `Fetch` specifies. Every child's text goes through `float()`, records are appended in document order, and a later tag overwrites an earlier one. A ValueError gives `[]`; any other exception escapes. |
| Feed.ChildValue | ISS-Tracker/iss_tracker.py:20 | `float(element.text)` for one child. An empty element (no text) raises TypeError. Otherwise the text converts exactly when `float()` accepts it, giving that number, and a rejected text raises ValueError. A tag kept as text gives its string unchanged. |
| Feed.FetchWhenAllConvert | ISS-Tracker/iss_tracker.py:16-22 | All or nothing, success side: when every text converts, the result has exactly one record per `state` element. Record i is the dictionary of element i, so document order is kept. |
| Feed.FetchedRecord | ISS-Tracker/iss_tracker.py:18-21 | When every text converts, record i has as keys exactly the tags of element i's children. Each tag maps to the converted text of its last occurrence: a later duplicate wins. |
| Feed.FetchWhenSomeFails | ISS-Tracker/iss_tracker.py:19-24 | All or nothing, failing side: when some text does not convert, the first failing child in document order decides the outcome. An empty element (`float(None)`) raises TypeError out of `fetch_iss_data`. A rejected text gives `[]`, never a partial list. |
| Feed.FetchOutcomes | ISS-Tracker/iss_tracker.py:13-24 | Once the document is parsed, `fetch_iss_data` returns a list or raises TypeError. An empty result means the document had no `state` element or some text failed to convert. |
| Feed.StateRecordConverts | ISS-Tracker/iss_tracker.py:19-20 | One `state` element converts if and only if all of its children convert. Otherwise its exception is the one raised by its first failing child. |
| Feed.StateRecordKeys | ISS-Tracker/iss_tracker.py:18-20 | The dictionary of one element has one key per distinct child tag, and no other keys. |
| Feed.StateRecordLastWins | ISS-Tracker/iss_tracker.py:20 | For a tag that occurs more than once, the dictionary holds the value of its last occurrence. |
| Feed.CollectSpec | ISS-Tracker/iss_tracker.py:17-21 | The outer loop succeeds if and only if every element succeeds. It then gives one record per element, in order. Otherwise the exception is the first failing element's. |
| Feed.FetchedValuesAreNumbers | ISS-Tracker/iss_tracker.py:20 | As written, every value of every fetched record is a float, the `epoch` field included. |
| Speed.SumOfSquares | ISS-Tracker/iss_tracker.py:40 | The sum of squares of `x_dot`, `y_dot` and `z_dot` is computed exactly when all three are present and numeric, and it is never negative. Otherwise it raises KeyError or TypeError. |
| Speed.RecordSpeed | ISS-Tracker/iss_tracker.py:31 | The per-record speed in `calculate_average_speed`, with nothing caught. It is computed exactly when the record has a numeric velocity, and it is then `sqrt` of the sum of squares. Otherwise it raises the exception that the sum of squares raises. |
| Speed.InstantaneousSpeed | ISS-Tracker/iss_tracker.py:38-43 | The speed is `sqrt` of the sum of squares, and is computed exactly when the velocity is numeric. The ValueError fallback to 0 is never taken. Other exceptions propagate unchanged. |
| Speed.InstantaneousIsRecordSpeed | ISS-Tracker/iss_tracker.py:38-43 | The `except ValueError` in `get_instantaneous_speed` makes no difference: on every record it gives the same result as the unguarded per-record speed inside `calculate_average_speed`. |
| Speed.InstantaneousSpeedIsNorm | ISS-Tracker/iss_tracker.py:40 | With `math.sqrt` a square root, the speed is non-negative and its square equals the sum of squares, so it is the Euclidean norm of the velocity. |
| Speed.CalculateAverageSpeed | ISS-Tracker/iss_tracker.py:27-35 | The accumulating loop returns exactly `AverageSpeed`. That is 0 for the empty list, because the ZeroDivisionError is caught, and otherwise the total divided by the count. The first record without a numeric velocity raises. |
| Speed.AverageOfNothing | ISS-Tracker/iss_tracker.py:33-35 | The average speed of the empty list is 0. |
| Speed.SpeedSumIsSum | ISS-Tracker/iss_tracker.py:29-32 | After the loop, `total_speed` is the sum of the records' instantaneous speeds. |
| Speed.AverageIsMean | ISS-Tracker/iss_tracker.py:29-33 | For a non-empty list, the average is the arithmetic mean of the records' instantaneous speeds. |
| Speed.AverageFails | ISS-Tracker/iss_tracker.py:30-31 | The average is computed if and only if every record has a numeric velocity. Otherwise it raises the exception of the first record that does not. |
| Speed.AverageNonNegative | ISS-Tracker/iss_tracker.py:29-35 | With `math.sqrt` a square root, every average speed is non-negative. |
| Speed.InstantaneousExample | ISS-Tracker/test/test_iss_tracker.py:18-24 | The unit test: velocity (1, 2, 3) has speed `sqrt(14)`. |
| Speed.AverageExample | ISS-Tracker/test/test_iss_tracker.py:6-16 | The unit test: the three test records average `(sqrt(14) + sqrt(29) + sqrt(50)) / 3`. |
| Query.SliceBound | ISS-Tracker/iss_tracker.py:74 | A slice bound is adjusted as Python does it: a negative bound counts from the end and is clamped at 0, and a bound past the end becomes the length. The result always lies in [0, length]. |
| Query.Paginate | ISS-Tracker/iss_tracker.py:74 | `data[offset:offset+limit]`: both bounds are adjusted by `SliceBound`. The page has max(0, stop − start) records, so it is empty when start ≥ stop. Its k-th record is the data's record at start + k. |
| Query.PaginateInRange | ISS-Tracker/iss_tracker.py:74 | For offset ≥ 0 and limit ≥ 0, the page holds exactly the records at indices offset up to min(offset + limit, length), in order. It is empty when offset ≥ length, and its length is max(0, min(limit, length − offset)). |
| Query.PaginateAll | ISS-Tracker/iss_tracker.py:74 | A page with offset 0 and limit equal to the length is the whole list. |
| Query.PaginateDefaults | ISS-Tracker/iss_tracker.py:70-74 | With the handler's defaults (offset 0, limit 10), the page is the first min(10, length) records. |
| Query.PaginateContiguous | ISS-Tracker/iss_tracker.py:74 | For any integers, negative ones included, the page is a contiguous run of the list and is no longer than it. |
| Query.PaginateNegativeOffset | ISS-Tracker/iss_tracker.py:74 | Offset −k counts from the end. Python adjusts the stop bound −k + limit on its own: a limit below k counts from the end too and gives `limit` records, while a larger limit makes the stop count from the front. |
| Query.FindByEpoch | ISS-Tracker/iss_tracker.py:82 | The comprehension raises KeyError if and only if some record has no `epoch`. Otherwise it holds exactly the records whose epoch is the query string, and its length is the number of matches. |
| Query.FindByEpochAppend | ISS-Tracker/iss_tracker.py:82 | The filter keeps order: filtering a concatenation concatenates the filtered parts. |
| Query.EpochMatches | ISS-Tracker/iss_tracker.py:82 | The test `state['epoch'] == epoch` from lines 82, 90 and 99. It raises KeyError("epoch") exactly when the record has no `epoch`. Otherwise it is true exactly when the record's epoch is the query string, so a number never matches. |
| Query.FirstFound | ISS-Tracker/iss_tracker.py:90-91 | `epoch_data[0]` is the first record in the list whose epoch matches. |
| Query.EpochTime | ISS-Tracker/iss_tracker.py:109 | `strptime(x['epoch'], …)`. A missing `epoch` raises KeyError and a number raises TypeError. A string gives a time exactly when it parses, and raises ValueError when it does not. |
| Query.Distances | ISS-Tracker/iss_tracker.py:109 | The key `abs(now - strptime(epoch))` is computed for every record if and only if every record's epoch parses. Otherwise the first failing record decides the exception: KeyError for a missing epoch, TypeError for a float, ValueError for bad text. |
| Query.ArgMin | ISS-Tracker/iss_tracker.py:109 | `min`'s left-to-right scan settles on a position whose key is at most every other key and strictly less than the key of every earlier position. |
| Query.Nearest | ISS-Tracker/iss_tracker.py:109 | `min` on an empty list raises ValueError. It succeeds if and only if the list is non-empty and every key computes. It then returns a record nearest in time to `now`, and among ties the earliest. When a key fails, the exception is the one raised by the first record whose key fails. |
| Routes.GetSpeed | ISS-Tracker/iss_tracker.py:87-92 | The result is IndexError if and only if no record has the epoch, and KeyError when a record lacks `epoch`. Otherwise the result is exactly the instantaneous speed of the first matching record, success or error. |
| Routes.GetLocation | ISS-Tracker/iss_tracker.py:96-101 | The filter's KeyError propagates. Otherwise the answer is the fixed location (0, 0, 0, "N/A"). |
| Routes.GetCurrentData | ISS-Tracker/iss_tracker.py:105-112 | An empty list raises ValueError. An answer exists exactly when `min` succeeds and the nearest record has a numeric velocity. It is that record's speed with the fixed location. Otherwise `/now` raises what `min` raised, or, for the nearest record, the KeyError or TypeError of its speed. |
| Routes.AsWrittenEpochNeverMatches | ISS-Tracker/iss_tracker.py:90-91 | On any list `fetch_iss_data` returns, the epoch filter finds nothing or raises KeyError. So `/speed` never answers with a speed. |
| Routes.AsWrittenNowFails | ISS-Tracker/iss_tracker.py:107-109 | On any list `fetch_iss_data` returns, `min` at `/now` raises, so `/now` never answers. |
| Routes.KeptEpochIsText | ISS-Tracker/iss_tracker.py:20 | With `epoch` kept as text, every fetched record's `epoch` is the string of its element's last `epoch` child. |
| Routes.KeptEpochIsFound | ISS-Tracker/iss_tracker.py:90-91 | With `epoch` kept as text, looking up any epoch of the feed finds its record. `/speed` then answers with the instantaneous speed of the first record carrying that epoch, which is that record or an earlier one, and never with IndexError. When that record has the velocity fields, the answer is a speed. |
| Routes.KeptEpochGivesNearest | ISS-Tracker/iss_tracker.py:109 | With `epoch` kept as text and every epoch text parseable, `/now` finds the nearest record of any non-empty feed. |

## Left out

- The network fetch `requests.get` (iss_tracker.py:14) is not modelled. The model starts from the already parsed `state` elements. A transport error is not a ValueError, so in the source it escapes `fetch_iss_data`. The only exceptions are the URL-validation errors of `requests`, which subclass ValueError; the URL is a fixed, valid constant.
- The XML parse `ET.fromstring` and `findall('.//state')` (iss_tracker.py:15-17) are not modelled either: they are library calls. A malformed document raises `ET.ParseError`, which is not a ValueError and escapes.
- `float()`, `math.sqrt` and `datetime.strptime` are parameters, not definitions. IEEE floating point (rounding, overflow of `** 2`, infinities and NaN) is modelled by exact reals. The unit tests' exact float equality is therefore stated as an equality of reals.
- `datetime.now()` is the parameter `now`. Timestamps are whole seconds, so `timedelta` comparison becomes integer comparison.
- Flask itself is not modelled: routing, `request.args`, the `int()` parsing of `limit` and `offset`, `jsonify` and dictionary key order. The handlers take the record list and integer parameters directly.
- The constant routes `/comment`, `/header` and `/metadata` (iss_tracker.py:46-58) are not modelled, nor is the unused geopy import (iss_tracker.py:7). `/epochs` (iss_tracker.py:61-65) returns the fetched list unchanged, which is `Feed.Fetch` itself.
- No geodesy is modelled. `/location` and `/now` answer fixed placeholder fields, and the model reproduces those constants.

## Findings

| source | as written | input that shows it | evidently intended | confidence | as-written member | corrected member |
|---|---|---|---|---|---|---|
| ISS-Tracker/iss_tracker.py:82 | Line 20 converts every child, including `epoch`, with `float()`. The filters at lines 82, 90 and 99 then compare that float with the route's epoch string, which is never equal. | A feed whose `state` elements each have an `epoch` child that `float()` accepts and numeric `x_dot`, `y_dot`, `z_dot`: `/epochs/<epoch>` is `[]` for every epoch, and `/epochs/<epoch>/speed` raises IndexError. A feed whose epoch text `float()` rejects yields `[]` for everything. | The record keeps its `epoch` text as a string, so the filter finds the record with that epoch. | high; not executed | Routes.AsWrittenEpochNeverMatches | Routes.KeptEpochIsFound |
| ISS-Tracker/iss_tracker.py:109 | `datetime.strptime(x['epoch'], ...)` receives the float stored at line 20, or a missing key. | Any non-empty fetched list: `strptime` raises TypeError (or `x['epoch']` raises KeyError), so `/now` never answers. | `strptime` receives the epoch string, so `min` finds the nearest record. | high; not executed | Routes.AsWrittenNowFails | Routes.KeptEpochGivesNearest |

The corrected builder is `Feed.Fetch` (and `Feed.FetchIssData`) with `textTags == {"epoch"}`. That is the same loop, except that `epoch` text is stored as a string. The route functions `Routes.GetSpeed`, `Routes.GetLocation` and `Routes.GetCurrentData` are stated over any record list, so with the corrected builder they behave as the lemmas above describe.

# Exercise catalog service — a Dafny model

This project models the core of a small read-only exercise catalog service:

- **The query layer** (`DataLoader`, `data_loader.dfy`). The catalog is an immutable value: the exercises, muscles, body parts and equipments in load order. Its getters are the fields of the `Catalog` datatype. The queries over it are:
  - lookup by id, a first-match linear scan;
  - case-insensitive substring search on the name;
  - case-insensitive substring filters on muscles (target or secondary), body parts and equipments;
  - random sampling.
- **The request handlers** (`Api`, `api.dfy`):
  - the paginated listing, with its filter precedence and page arithmetic;
  - the by-id, search and by-muscle/body-part/equipment routes, with their truncation to `limit` and their 404 policy.
- **The statistics route** (`ApiStats`, `api_stats.dfy`):
  - per-field frequency counting into insertion-ordered dictionaries, done by nested loops;
  - a stable sort by descending count;
  - truncation to the top ten for equipments and muscles.
- **The website's `escapeHtml`** (`Script`, `script.dfy`).
- **Route dispatch** in declaration order (`Routing`, `routing.dfy`). It exists only for the finding below.

Supporting modules:

- `Text` (`text.dfy`): ASCII lower-casing and Python's substring `in`.
- `Models` (`models.dfy`): the record shapes.
- `Wrappers` (`wrappers.dfy`): `Option`.

Because the catalog is a value, no query can change the lists it reads. The framework's parameter validation becomes preconditions: `page >= 1`, `1 <= limit <= 100`, and `count >= 0` for sampling. A 404 is the `NotFound` case of `Api.RouteResult`, and it carries the source's detail message.

Pagination is the slice at api/index.py:121-123. Over 45 items at 20 per page it gives items 20 to 39 on page 2 and the last 5 on page 3, and `Api.PaginationExample` proves exactly that.

## Model

| member | source | states |
|---|---|---|
| `Text.Lower` | data_loader.py:57 | `str.lower()` on ASCII: same length; each capital becomes the letter 32 code points later, every other character is kept |
| `Text.Contains` | data_loader.py:60 | the string `in` operator: a needle found in the haystack is never longer than it |
| `Text.LowerIsIdempotent` | data_loader.py:57 | lower-casing leaves no ASCII capital, and lower-casing twice is lower-casing once |
| `Text.ContainsAtSomePosition` | data_loader.py:60 | `needle in hay` holds iff the needle starts at some position of the haystack |
| `Text.ContainsBasics` | data_loader.py:55-61 | every string contains itself and the empty string; a needle longer than the haystack is never in it |
| `DataLoader.Select` | data_loader.py:58-86 | a filter's result is no longer than the list, and each element is from the list and satisfies the condition |
| `DataLoader.SelectSpec` | data_loader.py:58-86 | a filter keeps exactly the matching exercises, each as many times as it occurs in the list, as an order-preserving subsequence |
| `DataLoader.SelectConcat` | data_loader.py:58-86 | filtering a concatenation filters each part in turn, so the original order is kept |
| `DataLoader.SelectAll` | data_loader.py:58-61 | when every exercise matches, the filter returns the list unchanged |
| `DataLoader.SearchExercisesByName` | data_loader.py:55-61 | an exercise is in the result iff it is in the catalog and its lower-cased name contains the lower-cased query; the result is a subsequence of the catalog; every matching record is kept as often as it occurs in the catalog |
| `DataLoader.GetExercisesByMuscle` | data_loader.py:63-70 | an exercise is kept iff the folded term is in some folded target muscle or some folded secondary muscle; order is kept; every matching record is kept as often as it occurs in the catalog |
| `DataLoader.GetExercisesByBodyPart` | data_loader.py:72-78 | an exercise is kept iff the folded term is in some folded body part; order is kept; every matching record is kept as often as it occurs in the catalog |
| `DataLoader.GetExercisesByEquipment` | data_loader.py:80-86 | an exercise is kept iff the folded term is in some folded equipment; order is kept; every matching record is kept as often as it occurs in the catalog |
| `DataLoader.EmptySearchReturnsAll` | data_loader.py:55-61 | the empty query returns every exercise in load order |
| `DataLoader.ExerciseFoundByOwnTags` | data_loader.py:63-86 | each exercise is returned when filtering by any of its own target or secondary muscles, body parts or equipments |
| `DataLoader.FiltersIgnoreCase` | data_loader.py:57-86 | two terms with the same folding give identical results from all four filters |
| `DataLoader.FiltersReadOnlyTheirFields` | data_loader.py:58-86 | each filter consults only its own fields: exercises that agree on them are kept or dropped alike |
| `DataLoader.GetExerciseById` | data_loader.py:48-53 | returns the first exercise in list order with that id; returns None exactly when no exercise has it |
| `DataLoader.GetRandomExercises` | data_loader.py:100-105 | when `count >= len` it returns the whole list unchanged; otherwise exactly `count` exercises taken from distinct positions of the list |
| `Api.TotalPages` | api/index.py:119-120 | the page count is the ceiling of total/limit: `pages*limit >= total`, `(pages-1)*limit < total` when total > 0, and 0 pages for no items |
| `Api.OffsetIsProduct` | api/index.py:121 | page `page` starts at position `(page-1)*limit` |
| `Api.Page` | api/index.py:121-123 | the page has `max(0, min(limit, total - start))` items, which are the list's items from the page's start on; a start past the end gives an empty page |
| `Api.PageIsSlice` | api/index.py:121-123 | a page is the slice of the list between its start and its end, both clamped to the list's length |
| `Api.Truncate` | api/index.py:161 | `items[:limit]` is the prefix of length `min(limit, n)` |
| `Api.PagesUpToIsPrefix` | api/index.py:119-123 | pages 1..k together are the first `min(start of page k+1, total)` items, that is `min(k*limit, total)`, in order |
| `Api.PagesCoverTheList` | api/index.py:119-123 | pages 1..total_pages together are exactly the list, and every later page is empty |
| `Api.ChooseExercises` | api/index.py:106-116 | the listed exercises are always a subsequence of the catalog |
| `Api.ChooseExercisesSpec` | api/index.py:106-116 | the listed exercises are the search matches if `search` is present, else the muscle matches, else the body-part matches, else the equipment matches, else the whole catalog |
| `Api.FilterPrecedence` | api/index.py:108-116 | an empty string counts as an absent filter, and once a filter is present all lower-priority ones are ignored |
| `Api.GetExercises` | api/index.py:87-131 | the envelope echoes `page` and `limit`; `total` is the length of the chosen list; `total_pages` is its ceiling page count; `exercises` is the requested page (`Api.Page`) of the chosen list |
| `Api.PaginationExample` | api/index.py:119-123 | over 45 results at 20 per page there are 3 pages, page 2 holds items 20 to 39 and page 3 holds the last 5 |
| `Api.GetExerciseByIdRoute` | api/index.py:134-146 | 404 with "Exercise with ID '<id>' not found" iff no exercise has the id; otherwise the first exercise of the catalog, in list order, with that id |
| `Api.SearchExercises` | api/index.py:149-161 | never a 404: the first `min(limit, n)` name matches, possibly none |
| `Api.FoundOrNotFound` | api/index.py:176-178 | 404 with the given detail iff the filter result is empty; otherwise its first `min(limit, n)` elements, at least one |
| `Api.GetExercisesByMuscle` | api/index.py:164-178 | 404 iff no exercise matches the muscle term, with the source's detail message; otherwise the first `min(limit, n)` muscle matches |
| `Api.GetExercisesByBodypart` | api/index.py:181-195 | 404 iff no exercise matches the body-part term; otherwise the first `min(limit, n)` matches |
| `Api.GetExercisesByEquipment` | api/index.py:198-212 | 404 iff no exercise matches the equipment term; otherwise the first `min(limit, n)` matches |
| `Api.SearchAndByMuscleDisagreeOnNoMatch` | api/index.py:149-178 | for a term matching nothing, the search route answers an empty list while the by-muscle route answers 404 |
| `ApiStats.FirstAppearancesSpec` | api/index.py:251-254 | a dictionary's key order lists each value once, and lists exactly the values seen |
| `ApiStats.CountMapSpec` | api/index.py:251-254 | the count dictionary's keys are exactly the values seen, and each maps to its number of occurrences |
| `ApiStats.CountValues` | api/index.py:253-254 | the inner loop extends the dictionary and its key order by one exercise's values |
| `ApiStats.CountOccurrences` | api/index.py:250-266 | after the nested loops, the key order is the first-appearance order of the field's values; the keys are exactly those values; each count is the value's number of occurrences across that field of all exercises |
| `ApiStats.MentionsMembers` | api/index.py:251-266 | a value is counted iff some exercise lists it in that field |
| `ApiStats.SumOfTally` | api/index.py:251-266 | the counts add up to the number of entries in the field over all exercises |
| `ApiStats.InsertByCount` | api/index.py:273 | inserting an entry adds exactly that entry |
| `ApiStats.SortByCountDesc` | api/index.py:273 | the sort is a permutation of its input |
| `ApiStats.SortByCountDescSpec` | api/index.py:273 | the sorted list is non-increasing in count, and entries of equal count keep their input order, as Python's stable `sorted(..., reverse=True)` does |
| `ApiStats.StableSortIsUnique` | api/index.py:273 | a non-increasing list that keeps each count's input order is uniquely determined, so the sort result is the one Python gives |
| `ApiStats.TallyMembers` | api/index.py:251-273 | the dictionary's items hold one entry per value seen, with its number of occurrences, and no key twice |
| `ApiStats.SortedCountsSpec` | api/index.py:251-275 | a count list holds one entry per distinct value, with its true count (at least 1, from some exercise); counts sum to the number of field entries; non-increasing order; ties in first-appearance order |
| `ApiStats.TopTen` | api/index.py:274-275 | `[:10]` is the prefix of length `min(10, k)` |
| `ApiStats.Items` | api/index.py:273 | `.items()` pairs each key with its count, in key order |
| `ApiStats.GetApiStats` | api/index.py:245-276 | the totals are the list lengths; the body-part counts are the full stable descending sort; equipment and muscle counts are the first ten entries of theirs |
| `Script.EscapeChar` | website/script.js:138-145 | each of `& < > " '` becomes an entity starting with `&`; any other character is copied |
| `Script.EscapeHtml` | website/script.js:137-146 | the escaped text is at least as long as the input |
| `Script.EscapeHtmlConcat` | website/script.js:145 | `escapeHtml(a + b) == escapeHtml(a) + escapeHtml(b)` |
| `Script.EscapeHtmlRemovesMarkup` | website/script.js:138-145 | the output contains no `<`, `>`, `"` or `'` |
| `Script.EscapeHtmlLength` | website/script.js:138-145 | the output is as long as the input iff the input has none of the five special characters, and then it equals the input |
| `Script.UnescapeEscapeHtml` | website/script.js:137-146 | escaping loses nothing: every `&` it emits starts one of its entities, so reading the entities back gives the input |
| `Script.EscapeHtmlNotIdempotent` | website/script.js:145 | `&` escapes to `&amp;`, and escaping that again gives `&amp;amp;` |
| `Routing.Dispatch` | api/index.py:45-245 | a path goes to the first declared route whose pattern matches it, or to none when no pattern matches |
| `Routing.RandomPathReachesById` | api/index.py:134-224 | with the routes as declared, GET /exercises/random goes to the by-id handler |
| `Routing.FixedRoutesDispatch` | api/index.py:215-224 | with the random route declared before the by-id route, GET /exercises/random goes to the random handler, and every other path is dispatched as before |

## Findings

| source | as written | input that shows it | evidently intended | confidence | as-written member | corrected member |
|---|---|---|---|---|---|---|
| api/index.py:134-224 | `/exercises/{exercise_id}` is declared before `/exercises/random`. The framework tries routes in declaration order, and a path parameter matches any non-empty segment. | GET /exercises/random goes to the by-id handler with id "random". That answers 404 unless an exercise has that id. | /exercises/random returns a random sample. | high, not executed | `Routing.RandomPathReachesById` | `Routing.FixedRoutesDispatch` |

## Left out

- Loading: the constructor and `_load_data` (data_loader.py:7-42) read four JSON files, and the module-level instance (data_loader.py:109) is built at import. This is file I/O and JSON decoding, so the loaded lists are given as a `Catalog` value.
- The getters (data_loader.py:44-46, 88-98) are the `Catalog` fields. The reference-data routes `/muscles`, `/bodyparts` and `/equipments` (api/index.py:227-242) return those fields unchanged.
- The random route (api/index.py:215-224) only passes `count` through to `DataLoader.GetRandomExercises`.
- Field validation of the records (models.py): the record shapes are used as datatypes and nothing is validated.
- The web framework machinery:
  - app construction and CORS (api/index.py:17-32);
  - the generic 500 handler (api/index.py:37-42);
  - query and path range validation, which is stated as preconditions;
  - JSON serialization;
  - the Vercel and uvicorn entry points (api/index.py:280-286).
- The `/` and `/api` info endpoints (api/index.py:45-84): they only report list lengths.
- gunicorn.conf.py: deployment configuration with no logic.
- website/script.js apart from `escapeHtml`: DOM events, fetch, clipboard, timers and animations. This is browser I/O.
- `escapeHtml` on a non-string argument: JavaScript would throw, but the model's argument is always a string.
- DataLoader.GetRandomExercises: the choice of each drawn position is nondeterministic. The model does not capture uniform randomness or the order of `random.sample`'s result. A negative `count` makes `random.sample` raise ValueError; the route never passes one, and the model requires `count >= 0`.
- DataLoader.SearchExercisesByName, DataLoader.GetExercisesByMuscle, DataLoader.GetExercisesByBodyPart, DataLoader.GetExercisesByEquipment: lower-casing folds only ASCII `A`-`Z`. Python's `str.lower` also folds non-ASCII letters.
- Api.TotalPages: the source computes `math.ceil(total / limit)` in floating point. The model uses the exact integer ceiling, which agrees at these sizes.
- Routing.Dispatch: it models only the order in which routes are tried and segment-by-segment matching. Trailing-slash redirects, HTTP methods and the other framework routing features are not modelled.

# A verified model of the fklubdw star-schema load

`sus.py` loads a small data warehouse for a bar's sales. The warehouse has three
dimensions and one fact table:

- `user_dim`, built from `member.csv`;
- `product_dim`, built from `product.csv`;
- `time_dim`, one row per distinct sale date;
- `sale_fact`, one row per group of sale rows with the same date text, product
  and member, with the number of items bought.

Each dimension is a pygrametl `CachedDimension`. Its `ensure` method returns the
surrogate key of an attribute tuple it has seen before, or stores the tuple and
hands out the next key.

The script runs in three steps:

1. It builds a dictionary from each raw member id and product id to the record it
   ensured.
2. It groups the sale rows by the text of the date, product and member. The date
   text comes from the timestamp; the first row of each group gets quantity 1 and a time record, and
   every later row adds one.
3. It walks the groups in insertion order. It skips a group whose member or
   product is unknown, and inserts every other group as a fact row.

The model is split into these modules:

| module | file | what it holds |
|---|---|---|
| `Base` | `base.dfy` | `Option`, `Result` and the three failures the model covers |
| `Text` | `text.dfy` | `str.split` with a one-character separator, `str.join`, and `int()`/`str()` on decimal text |
| `Tables` | `tables.dfy` | the cached dimension as a class `Dimension` over an abstract `DimState`, specified by the function `Ensured`; the append-only `FactTable` |
| `Builders` | `builders.dfy` | `ParseGender`, the row conversions, and `CreateUserDim`/`CreateProductDim` as a loop method `Fill` proved equal to the function `Build` |
| `Grouping` | `grouping.dfy` | the grouping loop of `CreateSalesForTime`, stated for any key function and any first-occurrence action |
| `Sales` | `sales.dfy` | `CreateTimeDim`, the f-string grouping key, and `CreateSalesForTime` as a loop method proved equal to `Aggregate` |
| `Linker` | `linker.dfy` | the fact-linking loop, and the script as a whole (`Run`) proved equal to `Pipeline` |

Every loop of the script is a method with a `while` loop. Each such method is
proved equal to a prefix-recursive function, and the properties are proved as
lemmas about those functions.

The key results:

- Every fact's three foreign keys name existing rows of their dimensions
  (`Linker.PipelineIntegrity`).
- Group quantities are exact row counts, and they add up to the number of sale rows
  (`Grouping.GroupCounts`, `Grouping.GroupTotal`).
- `CreateTimeDim` runs once per group, on the group's first row, in insertion order
  (`Grouping.GroupRunsFirsts`, `Sales.AggregateTime`).
- Among the conversions the model covers, the script fails exactly when some
  row fails one of them, and it reports the first such row's error
  (`Builders.BuildOk`, `Sales.AggregateOk`, `Sales.AggregateFirstError`). The
  alcohol conversion of sus.py:94 is outside the model (see "Left out").

The grouping key is the `-`-joined string that the script builds. The model shows
two things about it:

- It identifies date, product and member when the ids contain no `-`
  (`Sales.GroupKeyInjective`).
- Two different sales share a key when an id does contain `-`
  (`Sales.GroupKeyCollision`). An example is product `"1-2"` bought by member `"3"`
  and product `"1"` bought by member `"2-3"`.

The script never checks product ids or the ids in the sale rows, and `int()`
accepts a member id such as `"-3"`. Nothing in the script rules such ids out. The
model records this as a property of the key, and does not claim it as a defect.

The key also holds the date's text, not its value. For the same product and
member, a month written as `"06"` in one row and as `"6"` in another gives two
different keys, while both dates have the same `time_dim` attributes
(`Sales.GroupKeyDateSpelling`). So the two rows form two groups; `ensure` gives
both the same `time_dim` key (`Tables.EnsureTwice`), and the linker then inserts
two facts with the same three foreign keys.

Gender names are plain strings in the code: `"Male"`, `"Female"` or `"Unknown"`
(sus.py:67-74). The model follows the code, not a separate enumeration type.

## Model

| member | source | states |
|---|---|---|
| Builders.ParseGender | sus.py:67-74 | "M", "F" and "U" are accepted and no other code; the result is one of the three names; any other code fails with that code |
| Builders.GenderRoundTrip | sus.py:67-74 | decoding is one-to-one: a code decodes to a name exactly when it is that name's code, and only the three names are produced |
| Text.ParseInt | sus.py:83-84 | `int(text)` on ASCII text: optional white space, an optional sign, at least one digit, optional white space; anything else is rejected. Text it accepts contains a digit. The two directions are `Text.ParseIntAccepts` and `Text.ParseIntShape` |
| Text.ParseIntShow | sus.py:83-84 | the model's parser reads back every integer the model's `IntToString` writes: `ParseInt(IntToString(n)) == Some(n)` for every integer n (Python's digit limit is left out, see "Left out") |
| Text.ParseIntShape | sus.py:83-84 | the converse: every text `int()` accepts is white space, an optional sign, leading zeros, the shortest decimal spelling of the value's magnitude, then white space; the value is negated exactly when the sign is "-" |
| Text.ParseIntAccepts | sus.py:83-84 | the accepting direction: any white space, an optional sign, one or more digits with leading zeros allowed (such as the month `"06"`), then white space, is accepted, and its value is that of the digits, negated for "-"; with `Text.ParseIntShape` this is the whole accepted language |
| Text.DigitsCanonical | sus.py:83-84 | a digit string is leading zeros followed by the shortest spelling of its value |
| Text.TrimParts | sus.py:83-84 | the white space `int()` ignores is a prefix and a suffix of the text, and only white space |
| Text.Split | sus.py:105 | `str.split(sep)` never returns an empty list, so `[0]` on the timestamp split cannot fail |
| Text.SplitPiecesFree | sus.py:105 | no piece of a split contains the separator |
| Text.JoinSplit | sus.py:105 | joining the pieces of a split with the separator gives back the original string |
| Text.SplitJoin | sus.py:105-106 | splitting a join of separator-free pieces gives back those pieces |
| Builders.UserAttrsOf | sus.py:81-84 | a member row converts exactly when gender, year and id all parse; the record then holds the parsed id, the gender name and the parsed year; a bad gender is reported first |
| Builders.ProductAttrsOf | sus.py:92-95 | with the alcohol amount already converted (see "Left out"), a product row converts exactly when its price parses; the record holds name, alcohol amount and parsed price |
| Tables.Ensured | sus.py:85 | `ensure` returns the key the cache then holds for the tuple, keeps every earlier key, logs the request, and keeps the cache and rows consistent; rows grow exactly when the tuple is new, and a new tuple gets a key no earlier tuple has |
| Tables.RowsDistinct | sus.py:29-46 | a consistent cached dimension never stores the same attribute tuple twice |
| Tables.EnsureTwice | sus.py:85 | ensuring the same tuple twice returns the same key and stores nothing the second time |
| Tables.EnsureKnown | sus.py:96 | ensuring a known tuple returns its cached key and changes nothing but the request log |
| Tables.Dimension.Ensure | sus.py:85 | the method keeps the dimension consistent, and its new state and key are exactly those `Ensured` gives for the old state |
| Tables.FactTable.Insert | sus.py:148 | an insert appends exactly the given fact |
| Builders.Build | sus.py:80-86 | the builder loop as a function of the dimension state: each row is converted, ensured, and stored in the dictionary under its raw id; the first conversion error ends it. Its properties are the `Build*` lemmas below |
| Builders.BuildErrSticky | sus.py:80-86 | once a row fails to convert, the loop fails with that row's error whatever follows |
| Builders.BuildOk | sus.py:80-86 | building succeeds exactly when every row converts; on failure the error is that of the first row that does not convert |
| Builders.BuildKeys | sus.py:86 | the dictionary's keys are exactly the raw ids of the rows |
| Builders.BuildLastWins | sus.py:97 | when an id repeats, the dictionary keeps the record of its last row |
| Builders.BuildEntriesKeyed | sus.py:85-86 | every dictionary record carries the key the dimension holds for its attributes, and the dimension stays consistent |
| Builders.BuildStoresAll | sus.py:85 | `ensure` is called once per row in row order with the row's converted attributes, and each of them ends up in the dimension |
| Builders.Fill | sus.py:80-87 | the loop succeeds exactly when `Build` does and then returns `Build`'s dictionary with the dimension in `Build`'s state; on failure it returns `Build`'s error |
| Builders.CreateUserDim | sus.py:77-87 | CreateUserDim: the same as `Fill`, for members keyed by their raw id |
| Builders.CreateProductDim | sus.py:89-98 | CreateProductDim: the same as `Fill`, for products keyed by their raw id |
| Sales.Quarter | sus.py:122 | `(month-1)//3+1` is the q with `3(q-1) <= month-1 < 3q`, so months 1..12 map into 1..4 |
| Sales.QuarterMonotone | sus.py:122 | a later month never has an earlier quarter |
| Sales.QuarterOfMonth | sus.py:122 | months 1-3, 4-6, 7-9 and 10-12 are exactly quarters 1, 2, 3 and 4 |
| Sales.TimeAttrsOf | sus.py:121-124 | a time record is made exactly when year, month and day all parse; its fields are those values, and its quarter is the month's quarter |
| Sales.TimeEntryFields | sus.py:119-126 | the time record holds the parsed date and the key the time dimension then holds for it; one request is logged, earlier keys are kept, and consistency is preserved |
| Sales.TimeEntry | sus.py:119-126 | CreateTimeDim as a function of the time dimension's state: parse the date, then ensure it. `Sales.TimeEntryFields` states its result |
| Sales.CreateTimeDim | sus.py:119-126 | the method succeeds exactly when `TimeEntry` does and returns `TimeEntry`'s record and state; on a parse error it returns that error and leaves the dimension untouched |
| Sales.SaleDate | sus.py:105 | the date parts of a timestamp: its text up to the first space, split at every `-`. `Sales.SaleDateDashFree` states its property |
| Sales.GroupKey | sus.py:106 | the f-string key: three date parts, product id and member id, joined by `-`. The `GroupKey*` lemmas below state its properties |
| Sales.SaleDateDashFree | sus.py:105 | no date part contains `-` |
| Sales.GroupKeyIsJoin | sus.py:106 | the f-string key is the five parts joined by `-` |
| Sales.KeyDeterminesDate | sus.py:106 | two rows with equal keys have the same first three date parts, whatever their ids contain |
| Sales.GroupKeyInjective | sus.py:106 | when no id contains `-`, equal keys mean equal date, product id and member id |
| Sales.GroupKeyCollision | sus.py:106 | ids that contain `-` can give two different sales the same key |
| Sales.GroupKeyDateSpelling | sus.py:105-106 | the key is built from the date's text: a month with and without a leading zero gives two different keys, while both dates have the same `time_dim` attributes |
| Sales.SaleKey | sus.py:105-106 | a row has a key exactly when its date has at least three parts; otherwise indexing fails on that timestamp |
| Sales.FirstTime | sus.py:105-111 | what the loop does for the first row of a group: the index error when the date has fewer than three parts, otherwise CreateTimeDim on the date. `Sales.FirstTimeDates` and `Sales.FirstTimeStep` state its result |
| Sales.FirstTimeStep | sus.py:111-125 | on success, the first-row action gives the row's parsed date, keyed as the time dimension then holds it, with one request logged, earlier keys kept and consistency preserved |
| Sales.Aggregate | sus.py:100-115 | CreateSalesForTime as a function of the time dimension's state: the grouping loop with the key `SaleKey` and the first-row action `FirstTime`. Its properties are the `Aggregate*` lemmas and the `Grouping` lemmas |
| Sales.SameKeySameDate | sus.py:106-111 | rows that share a key share their date, so the one time record made per group is right for every row of the group |
| Sales.SameKeySameParse | sus.py:106-111 | rows that share a key agree on whether their date parses |
| Sales.FirstTimeDates | sus.py:111 | every time record made for a group's first row is that row's parsed date |
| Sales.RunTimesRequests | sus.py:111-125 | running CreateTimeDim over rows one by one makes one record per row and logs exactly their attributes in order |
| Sales.RunTimesWellFormed | sus.py:111-125 | such a run keeps the time dimension consistent and keeps every key it held |
| Sales.RunTimesKeyed | sus.py:111-125 | such a run leaves every record's key equal to the key the dimension holds for its attributes |
| Grouping.Step | sus.py:105-114 | one iteration of the loop: compute the key; a new key stores the row with quantity 1 and the first-row action's record, a known key adds one. The `Step*` lemmas state its properties |
| Grouping.GroupRows | sus.py:103-115 | the loop over all rows as a prefix-recursive function, or the first error. The `Group*` lemmas state its properties |
| Grouping.StepKeys | sus.py:107-114 | one iteration adds the row's key to the dictionary, and appends it to the order exactly when the key is new |
| Grouping.StepGroups | sus.py:107-114 | a new key stores the row with quantity 1 and the first-occurrence record; a known key adds one to its quantity; no other group changes |
| Grouping.GroupErrSticky | sus.py:103-115 | once a row fails, the loop fails with that error whatever follows |
| Grouping.GroupKeys | sus.py:103-115 | the dictionary's keys are exactly the keys of the rows, and its iteration order lists each of them exactly once |
| Grouping.GroupCounts | sus.py:109-114 | each group's quantity is the number of rows with its key, and a key that no row has has no group |
| Grouping.StepTotal | sus.py:109-114 | one iteration adds exactly one to the sum of the quantities |
| Grouping.GroupTotal | sus.py:109-114 | the quantities add up to the number of rows |
| Grouping.GroupFirst | sus.py:109-110 | the row stored for a group is the first row with its key |
| Grouping.StepInOrder | sus.py:107-114 | a new key extends the stored rows and records in key order by the row and its record; a known key leaves them unchanged |
| Grouping.GroupRunsFirsts | sus.py:111 | the first-occurrence action runs exactly once per group, on the group's stored row, in insertion order, and its records are the groups' records |
| Grouping.GroupOk | sus.py:103-115 | when the action's success depends only on the row and rows with one key agree on it, the loop succeeds exactly when every row has a key and is accepted |
| Grouping.GroupFirstError | sus.py:103-115 | under the same conditions, a failing loop stops at its first row that has no key or is not accepted: the rows before it group without error, and the error is that row's key error, or else the action's error on it in the state the loop reached after those rows |
| Grouping.ThreeAndOne | sus.py:107-114 | three possibly different rows that share a key, then one row with another key, give two groups in that order; the first group holds the first of the three rows with quantity 3, and the second holds the last row with quantity 1 |
| Sales.AggregateRun | sus.py:100-115 | after aggregation the time dimension is consistent; its request log is the groups' time attributes in insertion order; each group's record is its stored row's date, keyed as the dimension holds it |
| Sales.AggregateTime | sus.py:100-115 | every group's time record is its stored row's date with the dimension's key for it; the dimension stays consistent, and CreateTimeDim was requested once per group, in order |
| Sales.AggregateOk | sus.py:100-115 | aggregation succeeds exactly when every timestamp has a date of three parts that all parse |
| Sales.AggregateFirstError | sus.py:100-115 | a failing aggregation reports its first row whose date does not parse: the index error when the date has fewer than three parts, otherwise the error of `int()` on its first bad part |
| Sales.AggregateNewKey | sus.py:107-111 | the iteration on a new key appends the key and stores the row with quantity 1 and its time record |
| Sales.AggregateKnownKey | sus.py:113-114 | the iteration on a known key adds one to that group's quantity and changes nothing else |
| Sales.AggregateFails | sus.py:105-111 | an iteration that fails, at the key or in CreateTimeDim, makes the whole aggregation fail with that error |
| Sales.CreateSalesForTime | sus.py:100-115 | the loop succeeds exactly when `Aggregate` does and returns `Aggregate`'s dictionary with the time dimension in `Aggregate`'s state; on failure it returns `Aggregate`'s error |
| Linker.LinkGroup | sus.py:142-147 | a group gives a fact exactly when its member id and product id are both known; the fact's keys are the group's time key and the looked-up product and user keys, and its measures are the first row's price and the group's quantity |
| Linker.Linked | sus.py:140-148 | the loop inserts at most one fact per group |
| Linker.LinkedFacts | sus.py:140-148 | a fact is inserted exactly when some group links to it |
| Linker.LinkedAll | sus.py:140-148 | when every member and product is known, there is one fact per group, in the dictionary's order |
| Linker.LinkedSkips | sus.py:143-144 | a group with an unknown member or product adds nothing |
| Linker.Link | sus.py:140-148 | the loop appends exactly `Linked`'s facts to the fact table |
| Linker.LinkedInRange | sus.py:145-147 | when each looked-up record is keyed in a consistent dimension, every linked fact's foreign keys are keys of existing rows |
| Linker.PipelineIntegrity | sus.py:132-148 | after a successful load all three dimensions are consistent, and every fact's user, product and time key names an existing row |
| Linker.Dimensions | sus.py:132-136 | the user then the product builder from empty dimensions, or the first error |
| Linker.Pipeline | sus.py:132-148 | the whole script from empty tables: the dimensions, then the aggregation, then the linked facts, or the first error. `Linker.PipelineIntegrity` states its property |
| Linker.LoadDimensions | sus.py:132-136 | building the user and then the product dimension on fresh tables gives exactly `Dimensions`, including the first error |
| Linker.Run | sus.py:132-148 | the whole script on fresh tables gives exactly `Pipeline`: the three dimensions and the facts, or the first error |

## Left out

- The database connection, `commit` and `close` (sus.py:20-25, 151-155) are durable I/O on PostgreSQL. The stand-in tables keep their rows in memory.
- The `print` of the connection (sus.py:22) is output only.
- Opening the CSV files and `CSVSource` (sus.py:57-65) are file I/O. The rows arrive as sequences of records that hold only the fields the script reads.
- `int(Decimal(row['alcohol_content_ml']) * 1000)` (sus.py:94) is decimal arithmetic. `ProductRow.alcoholMl` holds the already converted integer. The failures of that conversion are outside the model: malformed text, or a NaN or infinite value. So is their place in the error order, before the price is parsed. `Builders.ProductAttrsOf` and `Builders.BuildOk` therefore cover only the price conversion.
- `Text.ParseInt`: does not model `int()`'s underscore digit grouping, non-ASCII digits or non-ASCII white space. Only ASCII white space, an optional sign and ASCII digits are accepted. It also accepts digit strings of any length, while CPython 3.11 and later (and the 3.7.14, 3.8.14, 3.9.14 and 3.10.7 security releases) raise `ValueError` in `int()` and `str()` for decimal text of more than 4300 digits; for the same reason `Text.ParseIntShow` holds for the model's functions, not for `int(str(n))` on those versions.
- Each stand-in dimension starts empty and numbers its keys from 1 (`Tables.EmptyDim`). The script's `CachedDimension` looks up rows already stored in the `fklubdw` database and numbers new keys after them. `Linker.Run`, `Linker.Pipeline` and `Linker.PipelineIntegrity` are stated for fresh tables. The lemmas of `Builders` and `Sales` are stated for any consistent starting state.
- The library code of `CachedDimension` and `FactTable` is not part of this model. The stand-ins have only the behaviour the script uses: a cache with consecutive keys, and appending.
- `DimState.requests` is extra bookkeeping of the stand-in. It records every `ensure` request, which lets the model state how often `CreateTimeDim` runs.
- `Builders.Fill`: on a conversion error the dimension is only promised to stay consistent, because the script aborts before committing anything.
- `Sales.CreateSalesForTime`: on an error the time dimension is only promised to stay consistent, for the same reason.
- `Sales.CreateTimeDim` requires three date parts. Its only caller has already indexed all three in the key (sus.py:106), and it fails there when they are missing.
- The script stores and mutates the CSV row dictionaries themselves (sus.py:109-111, 145-147). The model keeps a group's first row, quantity and time record as values and builds each fact as a new value, so aliasing between dictionaries is not modelled.
- `Linker.Linked` skips a listed key that has no group. The aggregation never produces such a key (`Grouping.GroupKeys`), and `Linker.Link` requires that none exists.
- The dictionary's iteration order is Python's insertion order. It is modelled by the explicit `order` sequence of `Grouping.Grouped`.

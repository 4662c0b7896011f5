# Road-accident queries, modelled in Dafny

The modelled program is `DataProcessor`, a Java class that answers read-only
queries over an in-memory list of road-accident records. It has five
queries, and each one is written twice:

- once with Java 7 loops (`getAccidentByIndex7` and the others ending in `7`);
- once with the Stream API.

The five queries are:

- look up a record by id;
- list the records inside a longitude/latitude box;
- count the records per road-surface condition;
- find the three most frequent weather conditions;
- group the accident ids by district authority.

The model keeps this shape. `Processor.DataProcessor` is a class whose
constant field `roadAccidentList` is the list it was built with.

- **Stream versions.** Each stream version is a function of the class. It is
  built from the same steps as the stream pipeline: `Filter`, `Project`
  (stream `map`), `CountBy` (`groupingBy` with `counting`), `GroupBy`
  (`groupingBy` with `mapping`/`toList`), `SortByCount` (sorting by
  descending entry value), `Take` (`limit`). Its `ensures` clauses state what
  the query returns.
- **Loop versions.** Each loop version is a method whose loop does what the
  Java loop does: `containsKey`/`put` on a map, `add` to a list, `put` on a
  multimap, a counter `i` with an early `break`. Loop invariants prove that it
  returns what the stream version returns.

The top three is the one exception to exact agreement. A `HashMap` hands out
its entries in no promised order, so the loop method takes them in an
arbitrary order. It is proved to return the sorted-and-limited pipeline for
that order. That result is a valid top three. It matches the stream version
in length and in the count at every position, which means the two agree up
to the order of equally frequent conditions.

Files and modules:

- `wrappers.dfy` (`Wrappers`): `Option`, which stands for Java's `null` for
  "no record".
- `accidents.dfy` (`Accidents`): the `RoadAccident` record, its getters as
  functions, and the box predicate `InBox`.
- `sequences.dfy` (`Sequences`): filter, map, distinct, subsequence, and the
  facts about them that the queries use.
- `collectors.dfy` (`Collectors`): the counting and grouping collectors,
  their sums over a map (`Total`, `Flatten`), and the entry order of a hash
  map (`EntryList`).
- `ranking.dfy` (`Ranking`): the stable sort by descending count, `limit`,
  and the top-n specification `IsTopK` with its lemmas.
- `processor.dfy` (`Processor`): the `DataProcessor` class.

Two points about the code are worth stating outright:

- **Location query.** The code returns a list in input order, because
  `Collectors.toList` keeps encounter order even on a parallel stream. The
  model returns a sequence in input order and proves that it is a
  subsequence of the input.
- **Ties in the top three.** The code breaks ties by hash order. The stream
  function takes the conditions in the order they first occur, and the sort
  is stable (`Ranking.SortByCountStable`), so among equal counts the
  condition seen first comes first. The loop method keeps the order open, as
  the code does.

## Model

| member | source | states |
|---|---|---|
| `Processor.DataProcessor.constructor` | src/main/java/com/epam/processor/DataProcessor.java:24-28 | the processor holds exactly the list it is given |
| `Processor.DataProcessor.GetAccidentByIndex` | src/main/java/com/epam/processor/DataProcessor.java:148-151 | the result is absent exactly when no record has the id; otherwise it is the record at the first position whose id equals `index` |
| `Processor.DataProcessor.GetAccidentByIndex7` | src/main/java/com/epam/processor/DataProcessor.java:38-45 | the loop that returns at the first matching record, or returns null after the whole list, gives the same result as the stream version |
| `Processor.DataProcessor.GetAccidentsByLocation` | src/main/java/com/epam/processor/DataProcessor.java:162-170 | a record is in the result iff it is in the list and both its longitude and latitude lie in the closed box; each record that passes occurs as often as in the list; the result keeps list order; an inverted box (min > max on either axis) gives an empty result |
| `Processor.DataProcessor.GetAccidentsByLocation7` | src/main/java/com/epam/processor/DataProcessor.java:56-65 | the loop that appends each record inside the box returns the same list as the stream filter |
| `Processor.DataProcessor.GetCountByRoadSurfaceCondition` | src/main/java/com/epam/processor/DataProcessor.java:188-192 | the keys are exactly the surface conditions present; each maps to the number of records with that exact condition, which is never zero; the counts add up to the number of records |
| `Processor.DataProcessor.GetCountByRoadSurfaceCondition7` | src/main/java/com/epam/processor/DataProcessor.java:74-86 | the containsKey/put loop builds the same map as the stream collector; its invariant says the counts add up to the number of records processed so far |
| `Processor.DataProcessor.WeatherCounts` | src/main/java/com/epam/processor/DataProcessor.java:177 | the weather frequency table: keys are exactly the weather conditions present, each mapped to its number of records |
| `Processor.DataProcessor.GetTopThreeWeatherCondition` | src/main/java/com/epam/processor/DataProcessor.java:176-182 | the result is a top three of the weather frequencies: min(3, number of distinct conditions) entries, no duplicates, only conditions present, non-increasing frequency, and no condition left out occurs more often than one taken |
| `Processor.DataProcessor.GetTopThreeWeatherCondition7` | src/main/java/com/epam/processor/DataProcessor.java:93-124 | for the entry order the map hands out, the count loop, sort and counted `break` loop return the first three of the sorted entries; that is a top three, of the same length as the stream version's and with the same frequency at every position |
| `Processor.DataProcessor.GetAccidentIdsGroupedByAuthority` | src/main/java/com/epam/processor/DataProcessor.java:198-202 | the keys are exactly the authorities present; each maps to the ids of exactly the records with that authority, in list order, and no group is empty; the multiset union of the groups is the multiset of all ids |
| `Processor.DataProcessor.GetAccidentIdsGroupedByAuthority7` | src/main/java/com/epam/processor/DataProcessor.java:133-141 | the loop of multimap puts builds the same groups as the stream collector |
| `Sequences.FilterFirst` | src/main/java/com/epam/processor/DataProcessor.java:149-150 | a filtered list is empty iff no element passes; otherwise its head is the element at the first position that passes |
| `Sequences.FilterCounts` | src/main/java/com/epam/processor/DataProcessor.java:163-167 | a filter keeps each passing element as often as it occurs and drops every other one |
| `Sequences.FilterIsSubsequence` | src/main/java/com/epam/processor/DataProcessor.java:163-167 | a filter keeps encounter order: its result is a subsequence of its input |
| `Sequences.FilterAppend` | src/main/java/com/epam/processor/DataProcessor.java:58-63 | filtering a list extended by one element extends the result by that element iff it passes, which is the step of the appending loop |
| `Collectors.CountByCounts` | src/main/java/com/epam/processor/DataProcessor.java:77-84 | the counting loop's map has exactly the keys that occur, and each key's value is the number of elements with that key, at least one |
| `Collectors.CountByTotal` | src/main/java/com/epam/processor/DataProcessor.java:77-84 | the counts of the counting loop add up to the number of elements counted |
| `Collectors.GroupByGroups` | src/main/java/com/epam/processor/DataProcessor.java:137-139 | after the puts, each key's list is the values of exactly the elements with that key, in order, and the keys are exactly those that occur |
| `Collectors.GroupByFlatten` | src/main/java/com/epam/processor/DataProcessor.java:137-139 | every put adds its value to exactly one list: the multiset union of the lists is the multiset of all values |
| `Collectors.EntryList` | src/main/java/com/epam/processor/DataProcessor.java:106 | the entry list of a map holds every key exactly once, in an order left open |
| `Ranking.SortByCountSorted` | src/main/java/com/epam/processor/DataProcessor.java:108-112 | sorting by descending value yields a permutation of the entries in non-increasing order of count |
| `Ranking.SortByCountStable` | src/main/java/com/epam/processor/DataProcessor.java:108-112 | the sort is stable: of two different keys with equal counts, the one earlier in the input is earlier in the output |
| `Ranking.Take` | src/main/java/com/epam/processor/DataProcessor.java:178 | `limit(n)` keeps the first min(n, length) elements and nothing else |
| `Ranking.TopKIsTopK` | src/main/java/com/epam/processor/DataProcessor.java:106-121 | whatever order the entries come in, sorting them by descending count and keeping the first n yields a top-n |
| `Ranking.TopKUpToTies` | src/main/java/com/epam/processor/DataProcessor.java:176-182 | any two top-n lists of one table have the same length and the same count at every position, so they differ only among equal counts |
| `Ranking.TopThreeExample` | src/main/java/com/epam/processor/DataProcessor.java:88-91 | with 10 accidents in rain, 5 in snow, 6 in sunny weather and 1 in fog, the only top three is rain, sunny, snow |

## Left out

- Parallel execution: the `parallelStream` of the location query is modelled as a sequential filter. `Collectors.toList` keeps encounter order either way.
- Floating point: coordinates are Java `float`s and are modelled as reals. NaN (which fails every comparison, so such a record is never inside a box) and rounding are not modelled.
- Null: records, ids and conditions are never null in the model. The Java code would throw on a null id or condition, or use a null key.
- Counter width: the `Long` counters are unbounded naturals, since a list cannot hold 2^63 records.
- Hash order: the maps the queries return are compared by contents only. The order in which Java would iterate them is not modelled. The loop version of the top three takes the entries in an arbitrary order.
- Processor.DataProcessor.GetTopThreeWeatherCondition: its entries are taken in first-occurrence order instead of the hash map's unspecified order. Its contract, `IsTopK`, holds for every order, as `Ranking.TopKIsTopK` shows. Only the order among equally frequent conditions depends on this choice.
- The sort: `Collections.sort` and the stream's `sorted` are modelled by one stable insertion sort by descending count. Any stable sort returns the same list. The `Map.Entry` pairs are represented by their keys, with the values looked up in the count map they came from.
- Multimap: Guava's `ArrayListMultimap` is a map from key to list, with append-on-put. Its other behaviour (views, empty lists for absent keys) is not modelled. The loop and stream versions of the grouping return the same map. In Java their types differ (`Multimap` and `Map`).
- The list passed to the constructor: Java keeps a reference to the caller's mutable `List`, so a later change by the caller shows up in the queries. The model holds the list as a value and so assumes it is not changed after construction.
- The `RoadAccident` class is modelled only through the six getters the queries call. RoadAccident.java is not part of this model, and neither is any data loading or output.

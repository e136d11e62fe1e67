# A verified model of the Cassandra client

This project models the core of a small Java client for Apache Cassandra 0.6:

- the two connection pools: the current `connector.ConnectionPool` and the older `ConnectionPool`;
- the connection and its factory;
- the worker that runs an operation on a pooled connection;
- the mapping helpers of `CassandraOperationUtils`;
- `Query.execute`, which scans a column family for rows matching `(column, conditional, literal)` triplets;
- `ResultSet`, with its `or`, `and`, `ascendingBy` and `descendingBy`.

State the Java code changes in place becomes Dafny classes with `modifies` frames:

- the pools;
- connections;
- factories;
- the worker;
- the query object;
- result sets.

Pure logic becomes functions over datatypes:

- the mapping rules;
- the query predicate;
- the comparators;
- the sort.

Modules:

- `Errors`: the exceptions the client throws or lets escape, as a `Result`/`Option` error type.
- `JavaLang`: the platform behaviour the client relies on:
  - `StringUtils.isNumeric`;
  - `Integer.parseInt` and `Long.parseLong`;
  - decimal `toString`;
  - 32-bit truncation;
  - `compareToIgnoreCase`;
  - `getBytes` and `new String(byte[])`.
- `OperationUtils`: `CassandraOperationUtils`. Reflection and annotations become explicit class and field descriptors.
- `Connections`, `ConnectionFactories`: `Connection` and `ConnectionFactory`.
- `Pools`: what both pools share:
  - the pool map (host to connection to free flag);
  - the borrow loop;
  - the rebuild from the factory list;
  - the wait clock.
- `ConnectorPool`, `LegacyPool`: the two `ConnectionPool` classes.
- `OperationWorkers`: `OperationWorker.doWork`.
- `Sorting`: `Collections.sort` with a comparator that may throw, as a stable insertion sort.
- `ResultSets`: `ResultSet`, its two combinators and its two sorts.
- `Queries`: `Query.execute`.
- `PoolScenarios`, `QueryScenarios`: call sequences from the unit tests, proved on the model.

The outside world is turned into parameters:

- The Thrift transport becomes boolean parameters: `transportOk` says whether opening succeeds, and `flushOk` whether the flush on close succeeds.
- The clock becomes a sequence of elapsed times, one per borrow attempt.
- The random host index is a nondeterministic choice (`:|`). So is the free connection taken from a host's sub-pool: Java takes the first free one in the `HashMap`'s iteration order, which is unspecified.
- The store's range scan and its load by key are function parameters of the query object.

## Model

Paths below are relative to the repository root.

| member | source | states |
|---|---|---|
| JavaLang.IsNumeric | src/main/java/org/nate/cassandra/Query.java:64 | every character is a digit, so the empty text counts as numeric |
| JavaLang.ParseInt | src/main/java/org/nate/cassandra/Query.java:66 | a successful `new Integer` parse lies in int range |
| JavaLang.ParseLong | src/main/java/org/nate/cassandra/CassandraOperationUtils.java:95 | a successful `new Long` parse lies in long range |
| JavaLang.IntToString | src/main/java/org/nate/cassandra/CassandraOperationUtils.java:108-109 | non-empty text with a minus sign exactly for negative numbers and only digits after it |
| JavaLang.IntValue | src/main/java/org/nate/cassandra/ResultSet.java:94 | an int; for a Long, its value modulo 2^32 |
| JavaLang.CompareIgnoreCase | src/main/java/org/nate/cassandra/ResultSet.java:92 | equal strings compare 0, and a 0 result needs equal lengths |
| JavaLang.Encode | src/main/java/org/nate/cassandra/Query.java:46 | `getBytes` gives one byte per character |
| JavaLang.Decode | src/main/java/org/nate/cassandra/Query.java:63 | `new String(byte[])` gives one character per byte |
| JavaLang.ParseSigned | src/main/java/org/nate/cassandra/Query.java:66 | a successful parse lies in the requested range and needs at least one digit (not "", "-", "+") |
| JavaLang.ParseNumeric | src/main/java/org/nate/cassandra/Query.java:65-66 | non-empty digit-only text parses to its digits' value exactly when that value is in range, otherwise NumberFormatException |
| JavaLang.NaturalToStringValue | src/main/java/org/nate/cassandra/CassandraOperationUtils.java:108-109 | the decimal text of a natural number has that number as its digit value |
| JavaLang.ParseIntToString | src/main/java/org/nate/cassandra/CassandraOperationUtils.java:94-95 | the decimal text of any number in range parses back to the number |
| JavaLang.NumericIffNonNegative | src/main/java/org/nate/cassandra/CassandraOperationUtils.java:94 | the text of a number passes `isNumeric` exactly when the number is non-negative |
| JavaLang.Wrap32 | src/main/java/org/nate/cassandra/ResultSet.java:94 | 32-bit truncation stays within int range and is the identity on int values |
| JavaLang.CompareIgnoreCaseAntisymmetric | src/main/java/org/nate/cassandra/ResultSet.java:92 | swapping the strings negates the case-insensitive comparison |
| JavaLang.CompareIgnoreCaseTransitive | src/main/java/org/nate/cassandra/ResultSet.java:92 | "not greater ignoring case" is transitive |
| JavaLang.FoldAll | src/main/java/org/nate/cassandra/ResultSet.java:92 | folding keeps the length and folds each character |
| JavaLang.CompareIgnoreCaseZero | src/main/java/org/nate/cassandra/ResultSet.java:92 | two strings compare equal ignoring case exactly when their folded forms are equal |
| JavaLang.CompareIgnoreCaseOfFolded | src/main/java/org/nate/cassandra/ResultSet.java:92 | strings equal character by character after folding compare equal |
| JavaLang.DecodeEncode | src/main/java/org/nate/cassandra/Query.java:63 | text in the charset survives `getBytes` followed by `new String` |
| JavaLang.EncodeDecode | src/main/java/org/nate/cassandra/CassandraOperationUtils.java:106-107 | every byte array survives `new String` followed by `getBytes` |
| OperationUtils.AnnotatedName | src/main/java/org/nate/cassandra/CassandraOperationUtils.java:61-63 | a non-empty annotation name wins, otherwise the fallback |
| OperationUtils.DetermineColumnFamily | src/main/java/org/nate/cassandra/CassandraOperationUtils.java:48-65 | the simple class name unless a non-empty `@ColumnFamily` name is given, and then exactly that name |
| OperationUtils.DetermineColumnName | src/main/java/org/nate/cassandra/CassandraOperationUtils.java:67-84 | the field name unless a non-empty `@Column` name is given, and then exactly that name |
| OperationUtils.ConvertStringToValue | src/main/java/org/nate/cassandra/CassandraOperationUtils.java:87-99 | String fields are the text and byte[] fields its bytes; non-digit text gives null; digit text for Integer succeeds exactly when non-empty and in range; a failed Integer or Long parse arrives wrapped as the reflective constructor's failure |
| OperationUtils.ParseNumericCases | src/main/java/org/nate/cassandra/CassandraOperationUtils.java:94-95 | digit-only text parses exactly when it is non-empty and fits, and then to its value |
| OperationUtils.ConvertValueToString | src/main/java/org/nate/cassandra/CassandraOperationUtils.java:102-114 | succeeds exactly on String, byte[] and every kind of Number, a Number other than Integer and Long giving its own `toString`; other objects are IllegalArgument; null is a null dereference |
| OperationUtils.StringRoundTrip | src/main/java/org/nate/cassandra/CassandraOperationUtils.java:87-114 | a String value comes back unchanged after storing and reading |
| OperationUtils.BytesRoundTrip | src/main/java/org/nate/cassandra/CassandraOperationUtils.java:87-114 | a byte[] value comes back unchanged after storing and reading |
| OperationUtils.IntegerRoundTrip | src/main/java/org/nate/cassandra/CassandraOperationUtils.java:87-114 | a non-negative Integer comes back unchanged; a negative one comes back as null |
| OperationUtils.LongRoundTrip | src/main/java/org/nate/cassandra/CassandraOperationUtils.java:87-114 | the same for Long |
| OperationUtils.KeyFieldFor | src/main/java/org/nate/cassandra/CassandraOperationUtils.java:117-124 | none exactly when no field carries `@Key`, otherwise the first field that does |
| OperationUtils.CreateColumnObject | src/main/java/org/nate/cassandra/CassandraOperationUtils.java:22-28 | succeeds exactly when the value converts; the column is named by the raw field name and holds the encoded value and the timestamp |
| OperationUtils.ColumnObjectIgnoresAnnotation | src/main/java/org/nate/cassandra/CassandraOperationUtils.java:22-28 | a `@Column` name that differs from the field name is not the name the built column carries |
| OperationUtils.CreateEmptySlicePredicate | src/main/java/org/nate/cassandra/CassandraOperationUtils.java:39-46 | a forward range with both ends open and the Thrift default count of 100; every column name lies in the range |
| OperationUtils.Matching | src/main/java/org/nate/cassandra/CassandraOperationUtils.java:39-46 | the columns of a row a predicate asks for, exactly, no more than the row has |
| OperationUtils.Slice | src/main/java/org/nate/cassandra/CassandraOperationUtils.java:39-46 | what the store returns for a predicate: only columns of the row it asks for; all of them for a name list; at most `count` of them for a range |
| OperationUtils.MatchingAll | src/main/java/org/nate/cassandra/CassandraOperationUtils.java:39-46 | a predicate that asks for every column of a row matches the whole row |
| OperationUtils.EmptySliceTakesFirstColumns | src/main/java/org/nate/cassandra/CassandraOperationUtils.java:39-46 | the empty predicate returns a row whole only up to 100 columns, and otherwise its first 100 |
| Connections.Connection.constructor | src/main/java/org/nate/cassandra/Connection.java:20-24 | a new connection has the given settings and is closed, without a client |
| Connections.Connection.OpenConnection | src/main/java/org/nate/cassandra/Connection.java:39-49 | a client is made; the transport is open and the connection open exactly when opening succeeds, otherwise an error |
| Connections.Connection.CloseConnection | src/main/java/org/nate/cassandra/Connection.java:26-37 | the transport is flushed and closed only when there is a client and it is open; after a close the client is gone and the connection is closed; a failing flush changes nothing |
| ConnectionFactories.ConnectionFactory.Default | src/main/java/org/nate/cassandra/ConnectionFactory.java:7-11 | host and port unset, timeout 1000 |
| ConnectionFactories.ConnectionFactory.constructor | src/main/java/org/nate/cassandra/ConnectionFactory.java:13-17 | the three settings as given |
| ConnectionFactories.ConnectionFactory.CreateConnection | src/main/java/org/nate/cassandra/ConnectionFactory.java:19-21 | a fresh, closed connection with the factory's current settings |
| ConnectionFactories.ConnectionFactory.SetHost | src/main/java/org/nate/cassandra/ConnectionFactory.java:27-29 | the host changes and nothing else does |
| ConnectionFactories.ConnectionFactory.SetPort | src/main/java/org/nate/cassandra/ConnectionFactory.java:35-37 | the port changes and nothing else does |
| ConnectionFactories.ConnectionFactory.SetTimeout | src/main/java/org/nate/cassandra/ConnectionFactory.java:43-45 | the timeout changes and nothing else does |
| ConnectionFactories.SettersAffectOnlyLaterConnections | src/main/java/org/nate/cassandra/ConnectionFactory.java:19-45 | a connection made before the setters run keeps the old settings; one made after gets the new ones |
| Pools.SumMonotone | src/main/java/org/nate/cassandra/connector/ConnectionPool.java:49-66 | time waited before any attempt is no more than the whole budget |
| Pools.Checkout | src/main/java/org/nate/cassandra/connector/ConnectionPool.java:62 | the connection is marked busy under its host; every other host and every other connection keep their entries |
| Pools.Checkin | src/main/java/org/nate/cassandra/connector/ConnectionPool.java:112 | the connection is marked free under its own host; every other host and every other connection keep their entries |
| Pools.CheckinUndoesCheckout | src/main/java/org/nate/cassandra/connector/ConnectionPool.java:111-112 | releasing a connection just borrowed restores the pool map exactly |
| Pools.CheckinIdempotent | src/main/java/org/nate/cassandra/connector/ConnectionPool.java:111-112 | releasing a connection that is already free changes nothing |
| Pools.WaitForFree | src/main/java/org/nate/cassandra/connector/ConnectionPool.java:49-66 | each attempt starts within the wait budget; "none found" only once the budget is spent; a found connection was free; nothing free means a timeout; a free slot on every host is found on the first attempt |
| Pools.Endpoints | src/main/java/org/nate/cassandra/connector/ConnectionPool.java:88-92 | the endpoints are the factories' host, port and timeout, position by position |
| Pools.LastIndex | src/main/java/org/nate/cassandra/connector/ConnectionPool.java:87-97 | the last factory naming a host: later factories name other hosts |
| Pools.AddPristine | src/main/java/org/nate/cassandra/connector/ConnectionPool.java:96 | adding a sub-pool of untouched connections keeps every connection untouched |
| Pools.HostSettingsIsLast | src/main/java/org/nate/cassandra/connector/ConnectionPool.java:85-99 | a host is in the rebuilt pool exactly when some factory names it, with the settings of the last such factory |
| Pools.InitialPoolConsistent | src/main/java/org/nate/cassandra/connector/ConnectionPool.java:85-99 | a rebuilt pool keeps each connection under its host and has a host whenever there is a factory |
| Pools.NewSubPool | src/main/java/org/nate/cassandra/connector/ConnectionPool.java:89-94 | `connectionsPerHost` fresh, free, untouched connections with the factory's settings |
| Pools.InitializePool | src/main/java/org/nate/cassandra/connector/ConnectionPool.java:85-99 | the pool map is the layout of the factory list: one sub-pool per distinct host, and a later factory wins |
| Pools.NextFactory | src/main/java/org/nate/cassandra/connector/ConnectionPool.java:87-97 | one more factory's sub-pool gives the layout of the longer list |
| ConnectorPool.ConnectionPool.Default | src/main/java/org/nate/cassandra/connector/ConnectionPool.java:27-30 | one connection per host, a 1000 ms wait, no factories and no pool |
| ConnectorPool.ConnectionPool.constructor | src/main/java/org/nate/cassandra/connector/ConnectionPool.java:32-39 | the settings as given, with the pool built from the factories at once |
| ConnectorPool.ConnectionPool.GetConnection | src/main/java/org/nate/cassandra/connector/ConnectionPool.java:41-73 | no factories: "No connection factories defined" before any attempt; otherwise a free connection is opened and marked busy, or the wait budget is spent and the call times out, or opening fails; only the chosen connection changes |
| ConnectorPool.ConnectionPool.SetFactories | src/main/java/org/nate/cassandra/connector/ConnectionPool.java:75-79 | the factory list is replaced and the pool is rebuilt from it |
| ConnectorPool.ConnectionPool.SetConnectionsPerHost | src/main/java/org/nate/cassandra/connector/ConnectionPool.java:81-83 | the setting changes and the existing pool does not |
| ConnectorPool.ConnectionPool.ReleaseConnection | src/main/java/org/nate/cassandra/connector/ConnectionPool.java:101-114 | null is ignored; an open connection is closed first; then it is marked free under its host; a missing pool or host is a null dereference |
| LegacyPool.ConnectionPool.Default | src/main/java/org/nate/cassandra/ConnectionPool.java:24-27 | one connection per host, a 1000 ms wait, no factories and no pool |
| LegacyPool.ConnectionPool.constructor | src/main/java/org/nate/cassandra/ConnectionPool.java:29-34 | the settings as given, with the pool built from the factories at once |
| LegacyPool.ConnectionPool.GetConnection | src/main/java/org/nate/cassandra/ConnectionPool.java:36-65 | as in the current pool, except that the connection found is marked busy without being opened |
| LegacyPool.ConnectionPool.SetFactories | src/main/java/org/nate/cassandra/ConnectionPool.java:67-71 | the factory list is replaced and the pool is rebuilt from it |
| LegacyPool.ConnectionPool.SetConnectionsPerHost | src/main/java/org/nate/cassandra/ConnectionPool.java:73-75 | the setting changes and the existing pool does not |
| LegacyPool.ConnectionPool.ReleaseConnection | src/main/java/org/nate/cassandra/ConnectionPool.java:93-100 | an open connection is closed, then marked free under its host; null, a missing pool and an unknown host are null dereferences |
| OperationWorkers.Wrapped | src/main/java/org/nate/cassandra/OperationWorker.java:20-21 | success passes through; any failure becomes "Unable to perform operation" with its cause |
| OperationWorkers.OperationWorker.constructor | src/main/java/org/nate/cassandra/OperationWorker.java:9-11 | the worker keeps the pool it is given |
| OperationWorkers.OperationWorker.DoWork | src/main/java/org/nate/cassandra/OperationWorker.java:13-26 | the borrow's failure is wrapped; otherwise the work's wrapped result on the borrowed connection; the connection is released exactly once in every outcome, leaving the pool map as it was unless the close fails |
| Sorting.Insert | src/main/java/org/nate/cassandra/ResultSet.java:45 | insertion adds exactly the one element |
| Sorting.Sort | src/main/java/org/nate/cassandra/ResultSet.java:45 | a successful sort is a permutation of its input |
| Sorting.TiesSnoc | src/main/java/org/nate/cassandra/ResultSet.java:45 | the ties of a list grow by the appended element exactly when it ties |
| Sorting.InsertSucceeds | src/main/java/org/nate/cassandra/ResultSet.java:45 | with a consistent comparator insertion never fails |
| Sorting.SortSucceeds | src/main/java/org/nate/cassandra/ResultSet.java:45 | with a consistent comparator the sort never fails |
| Sorting.InsertSorted | src/main/java/org/nate/cassandra/ResultSet.java:45 | insertion into an ordered list keeps it ordered |
| Sorting.SortSorted | src/main/java/org/nate/cassandra/ResultSet.java:45 | the sorted list is ordered by the comparator |
| Sorting.SortPairFails | src/main/java/org/nate/cassandra/ResultSet.java:45 | two elements whose comparison throws make the sort fail with that error |
| Sorting.SortPairKeeps | src/main/java/org/nate/cassandra/ResultSet.java:45 | two elements not in reverse order stay as they are |
| Sorting.SortPairSwaps | src/main/java/org/nate/cassandra/ResultSet.java:45 | two elements in reverse order are swapped |
| Sorting.InsertStable | src/main/java/org/nate/cassandra/ResultSet.java:45 | insertion places the new element after every element it ties with |
| Sorting.SortStable | src/main/java/org/nate/cassandra/ResultSet.java:45 | elements that compare equal keep their input order |
| Sorting.SortOfTies | src/main/java/org/nate/cassandra/ResultSet.java:45 | when everything ties the list is left as it is |
| Sorting.SortedUnique | src/main/java/org/nate/cassandra/ResultSet.java:45 | without ties, the ordered permutation of a list is unique |
| Sorting.Reversed | src/main/java/org/nate/cassandra/ResultSet.java:53-66 | element `i` of the reverse is element `n-1-i` of the original |
| Sorting.ReversedMultiset | src/main/java/org/nate/cassandra/ResultSet.java:53-66 | reversing is a permutation |
| Sorting.SwappedConsistent | src/main/java/org/nate/cassandra/ResultSet.java:113-131 | swapping a consistent comparator's arguments keeps it consistent |
| Sorting.ReversedSorted | src/main/java/org/nate/cassandra/ResultSet.java:113-131 | an ordered list, reversed, is ordered by the swapped comparator |
| Sorting.SortSwappedIsReversed | src/main/java/org/nate/cassandra/ResultSet.java:38-66 | without ties, sorting by the swapped comparator gives the reverse |
| Sorting.NoTiesSwapped | src/main/java/org/nate/cassandra/ResultSet.java:113-131 | the swapped comparator has no ties when the original has none |
| ResultSets.Missing | src/main/java/org/nate/cassandra/ResultSet.java:20-24 | no longer than `other` |
| ResultSets.Shared | src/main/java/org/nate/cassandra/ResultSet.java:30-34 | no longer than `other` |
| ResultSets.MissingCount | src/main/java/org/nate/cassandra/ResultSet.java:20-24 | each element of `other` outside this set occurs as often as in `other`; elements of this set do not occur |
| ResultSets.SharedCount | src/main/java/org/nate/cassandra/ResultSet.java:30-34 | each element of `other` inside this set occurs as often as in `other`; nothing else occurs |
| ResultSets.MissingAppend | src/main/java/org/nate/cassandra/ResultSet.java:20-24 | works element by element, keeping `other`'s order |
| ResultSets.SharedAppend | src/main/java/org/nate/cassandra/ResultSet.java:30-34 | works element by element, keeping `other`'s order |
| ResultSets.OrMembers | src/main/java/org/nate/cassandra/ResultSet.java:17-26 | `or` holds exactly the elements of either set |
| ResultSets.AndMembers | src/main/java/org/nate/cassandra/ResultSet.java:28-36 | `and` holds exactly the elements of both sets |
| ResultSets.SharedDisjoint | src/main/java/org/nate/cassandra/ResultSet.java:28-36 | disjoint sets have an empty `and` |
| ResultSets.CompareAscending | src/main/java/org/nate/cassandra/ResultSet.java:85-103 | 0 when the first value is neither string nor Number (of any kind); null dereference exactly when it is and the second is null; ClassCastException exactly on mixed kinds |
| ResultSets.CompareDescending | src/main/java/org/nate/cassandra/ResultSet.java:113-131 | the same failure cases, tests on the first value |
| ResultSets.FieldOf | src/main/java/org/nate/cassandra/ResultSet.java:88-89 | the field's value exactly when the record is of the field's class and has the field |
| ResultSets.CompareRecords | src/main/java/org/nate/cassandra/ResultSet.java:86-102 | a record of another class compares as 0 (the caught IllegalArgumentException); otherwise the value comparator |
| ResultSets.Sorter | src/main/java/org/nate/cassandra/ResultSet.java:85-103 | the comparator handed to the sort: a tie unless both records are of the field's class and have it, and then the value comparison of that direction |
| ResultSets.SortedBy | src/main/java/org/nate/cassandra/ResultSet.java:38-66 | an empty list sorts to itself; an unknown field fails; success is a permutation; failures are the wrapped sort error of that direction |
| ResultSets.StringSorterConsistent | src/main/java/org/nate/cassandra/ResultSet.java:91-92 | on string values the ascending sorter meets the Comparator contract |
| ResultSets.NumberSorterConsistent | src/main/java/org/nate/cassandra/ResultSet.java:93-94 | on small numbers the ascending sorter meets the Comparator contract |
| ResultSets.DescendingIsSwapped | src/main/java/org/nate/cassandra/ResultSet.java:113-131 | on strings or small numbers the descending sorter is the ascending one swapped |
| ResultSets.ConsistentSorters | src/main/java/org/nate/cassandra/ResultSet.java:85-131 | both sorters meet the Comparator contract on comparable records |
| ResultSets.SortedByOrdered | src/main/java/org/nate/cassandra/ResultSet.java:38-66 | on comparable records the sort succeeds, is ordered and is stable |
| ResultSets.DistinctStringsNoTies | src/main/java/org/nate/cassandra/ResultSet.java:92 | strings that differ beyond case never tie |
| ResultSets.DistinctNumbersNoTies | src/main/java/org/nate/cassandra/ResultSet.java:94 | different small numbers never tie |
| ResultSets.DescendingReversesAscending | src/main/java/org/nate/cassandra/ResultSet.java:38-66 | without ties `descendingBy` is the reverse of `ascendingBy` |
| ResultSets.SortedByUnorderable | src/main/java/org/nate/cassandra/ResultSet.java:95-96 | values neither strings nor Numbers leave the order as it is |
| ResultSets.SortedByStringAgainstNumber | src/main/java/org/nate/cassandra/ResultSet.java:91-94 | a string against a Number throws ClassCastException in either argument order, so the whole sort fails |
| ResultSets.SortedByIntValueTies | src/main/java/org/nate/cassandra/ResultSet.java:93-94 | Numbers with the same `intValue` (3.7 and 3.2) tie and keep their order in both directions |
| ResultSets.SortedByIntValueSwaps | src/main/java/org/nate/cassandra/ResultSet.java:93-94 | Numbers whose `intValue`s are out of order (3.7 before 1.2) are swapped by the ascending sort |
| ResultSets.ResultSet.constructor | src/main/java/org/nate/cassandra/ResultSet.java:15 | a new result set is empty |
| ResultSets.ResultSet.Or | src/main/java/org/nate/cassandra/ResultSet.java:17-26 | a new set: this set's results, then those of `other` not among them |
| ResultSets.ResultSet.And | src/main/java/org/nate/cassandra/ResultSet.java:28-36 | a new set: the results of `other` this set contains |
| ResultSets.ResultSet.AscendingBy | src/main/java/org/nate/cassandra/ResultSet.java:38-51 | a new set holding the ascending sort, or its wrapped failure |
| ResultSets.ResultSet.DescendingBy | src/main/java/org/nate/cassandra/ResultSet.java:53-66 | a new set holding the descending sort, or its wrapped failure |
| ResultSets.ResultSet.SortCopy | src/main/java/org/nate/cassandra/ResultSet.java:39-46 | copy, then sort by the first element's class field: a new set or the sort's failure |
| Queries.ScanPredicate | src/main/java/org/nate/cassandra/Query.java:45-46 | a column-name list selecting exactly the clause column's bytes |
| Queries.ColumnSatisfies | src/main/java/org/nate/cassandra/Query.java:61-91 | a failed parse of the stored text fails whatever the conditional; failures are only a null dereference or a NumberFormatException; an ordering conditional fails with a null dereference exactly when the stored text is not digits, before the literal is parsed; EQUAL and NOT_EQUAL are text equality and inequality |
| Queries.AnyColumnSatisfies | src/main/java/org/nate/cassandra/Query.java:59-93 | an empty row finds nothing; a failure is a column test's failure |
| Queries.ClauseResults | src/main/java/org/nate/cassandra/Query.java:45-102 | a failed scan is the clause's failure; a success comes from a successful scan and filter, and holds the kept rows loaded by key, one for one |
| Queries.Accumulated | src/main/java/org/nate/cassandra/Query.java:42-107 | no clauses give no results; a failure is some clause's failure |
| Queries.StoredNumber | src/main/java/org/nate/cassandra/Query.java:63-67 | non-digit text gives null; digit text is parsed, failing when empty or beyond `Integer.MAX_VALUE` |
| Queries.NotEqualNegatesEqual | src/main/java/org/nate/cassandra/Query.java:68-86 | NOT_EQUAL is the negation of EQUAL and fails exactly when EQUAL fails |
| Queries.EqualIsTextEquality | src/main/java/org/nate/cassandra/Query.java:63-70 | EQUAL is string equality unless the stored digits cannot be an Integer |
| Queries.EmptyValueFails | src/main/java/org/nate/cassandra/Query.java:63-67 | an empty stored value fails every conditional |
| Queries.OverflowingValueFails | src/main/java/org/nate/cassandra/Query.java:65-66 | digits beyond `Integer.MAX_VALUE` fail every conditional |
| Queries.OrderingComparesNumbers | src/main/java/org/nate/cassandra/Query.java:72-83 | ordering conditionals compare the stored number with the literal's |
| Queries.OrderingOnTextFails | src/main/java/org/nate/cassandra/Query.java:63-83 | an ordering conditional on non-digit text unboxes null and fails, whatever the literal |
| Queries.OrderingOnBadLiteralFails | src/main/java/org/nate/cassandra/Query.java:72-83 | a literal that is not an Integer makes ordering fail on every stored value that is a number |
| Queries.OrderingComplements | src/main/java/org/nate/cassandra/Query.java:72-83 | GREATER_THAN and LESS_THAN_EQUAL_TO are complements, as are LESS_THAN and GREATER_THAN_EQUAL_TO |
| Queries.FirstMatchUnfold | src/main/java/org/nate/cassandra/Query.java:60-93 | the first matching column is the head or a later first match after a decided non-match |
| Queries.AnyColumnFinds | src/main/java/org/nate/cassandra/Query.java:60-94 | the search finds exactly when there is a first satisfying column after decided non-matches |
| Queries.AnyColumnMisses | src/main/java/org/nate/cassandra/Query.java:60-94 | the search misses exactly when every column is decided and fails the clause |
| Queries.FilterSlices | src/main/java/org/nate/cassandra/Query.java:58-96 | the filter never adds rows |
| Queries.FilterKeepsSatisfying | src/main/java/org/nate/cassandra/Query.java:58-96 | succeeds exactly when every row is decided, and keeps exactly the rows with a satisfying column |
| Queries.FilterAppend | src/main/java/org/nate/cassandra/Query.java:58-96 | works row by row, keeping scan order |
| Queries.LoadAll | src/main/java/org/nate/cassandra/Query.java:98-102 | each kept row is loaded by its key, position by position; a failure is some key's failure |
| Queries.AccumulatedSnoc | src/main/java/org/nate/cassandra/Query.java:42-102 | one more clause appends its results or ends the query with its failure |
| Queries.AccumulatedAppend | src/main/java/org/nate/cassandra/Query.java:42-107 | the results of a clause list are those of its parts, concatenated |
| Queries.AccumulatedFailurePersists | src/main/java/org/nate/cassandra/Query.java:109-111 | a failure of some prefix of the clauses is the failure of the whole query |
| Queries.SingleClause | src/main/java/org/nate/cassandra/Query.java:41-108 | one clause's query result is that clause's contribution |
| Queries.Query.constructor | src/main/java/org/nate/cassandra/Query.java:30-33 | the query keeps its scan and load |
| Queries.Query.Execute | src/main/java/org/nate/cassandra/Query.java:35-112 | no triplet is its own error; a class without `@ColumnFamily` fails as "not a ColumnFamily"; otherwise the clauses' results in order, or the first failure wrapped as "Query operation failed" |
| PoolScenarios.OnlySlot | src/main/java/org/nate/cassandra/connector/ConnectionPool.java:89-94 | a one-connection sub-pool holding `c` holds only `c` |
| PoolScenarios.SingleHostLayout | src/test/java/org/nate/cassandra/connector/ConnectionPoolTest.java:29-35 | one factory and one connection per host give one host with one free connection |
| PoolScenarios.LayoutIsSingle | src/main/java/org/nate/cassandra/connector/ConnectionPool.java:85-99 | that layout is exactly one host mapping one free connection with the factory's address |
| PoolScenarios.PooledConnection | src/test/java/org/nate/cassandra/connector/ConnectionPoolTest.java:21-26 | the test set-up's pool holds one untouched localhost:9160 connection |
| PoolScenarios.Setup | src/test/java/org/nate/cassandra/connector/ConnectionPoolTest.java:21-26 | the set-up yields a valid pool with a single free localhost:9160 connection |
| PoolScenarios.BorrowTwice | src/test/java/org/nate/cassandra/connector/ConnectionPoolTest.java:47-56 | the first borrow takes the only connection; the second times out |
| PoolScenarios.ReleaseOnce | src/test/java/org/nate/cassandra/connector/ConnectionPoolTest.java:58 | releasing the busy connection frees it |
| PoolScenarios.ReleaseTwice | src/main/java/org/nate/cassandra/connector/ConnectionPool.java:101-114 | releasing the busy connection frees it, and a second release changes nothing more |
| PoolScenarios.WaitAndRelease | src/test/java/org/nate/cassandra/connector/ConnectionPoolTest.java:46-62 | borrow, time out, release, borrow again: the same localhost:9160 connection |
| PoolScenarios.NoFactoriesAtFirst | src/main/java/org/nate/cassandra/connector/ConnectionPool.java:43-45 | both pools made without factories refuse at once |
| QueryScenarios.Numbers | src/main/java/org/nate/cassandra/Query.java:63-67 | the stored texts "10", "20", "30" are the numbers 10, 20, 30 |
| QueryScenarios.ScanIntegers | src/main/java/org/nate/cassandra/Query.java:45-56 | the scan for `anIntegerColumn` returns each row with only that column |
| QueryScenarios.GreaterThanTen | src/main/java/org/nate/cassandra/Query.java:72-74 | `> 10` fails on 10 and holds on 20 and 30 |
| QueryScenarios.GreaterThanTenResults | src/test/java/org/nate/cassandra/QueryTest.java:73 | the clause contributes the second and third objects, in that order |
| QueryScenarios.AscendingTwentyThirty | src/test/java/org/nate/cassandra/QueryTest.java:73 | ascending by `anIntegerColumn` keeps 20 before 30 |
| QueryScenarios.GreaterThanAscending | src/test/java/org/nate/cassandra/QueryTest.java:72-80 | the query, sorted ascending, returns exactly the second and third objects |

## Left out

- Thrift and the network: opening, flushing and closing a transport are boolean parameters (`transportOk`, `flushOk`). `get_range_slices` and `Cassandra.get` are function parameters of `Query`, fixed by the fixtures in `QueryScenarios`.
- `CassandraOperations` (insert, get, delete) and the `Cassandra` facade are not part of this model. The worker's pool is its own field, and `Operation` is a function of the connection.
- `createColumnPath` is not modelled. It only fills in a Thrift struct and states nothing beyond its inputs.
- Concurrency: neither pool synchronizes, so concurrent `getConnection` and `releaseConnection` calls can race on the pool map, and two callers can take the same free connection. The model covers sequential call sequences only and claims no thread safety.
- Clock and randomness:
  - `System.currentTimeMillis` is replaced by a sequence of elapsed times, and the choices made by `Random` are nondeterministic.
  - `GetConnection` requires that the elapsed times add up to the timeout. This models a clock that does advance, which is what makes the loop end.
- Logging: the current pool logs through slf4j and the legacy pool does not log. The log calls have no effect on the model and are left out.
- Reflection and annotations become class and field descriptors, with records mapping field names to values.
  - `getDeclaredField` looks at the first element's class; a record of another class takes the `IllegalArgumentException` path.
  - Subclass instances, private field access, and `equals` other than value equality are not modelled.
- `OperationUtils.ConvertStringToValue`: covers only Integer and Long among the classes with a String constructor. Any other type gives a reflection failure. The `InvocationTargetException` around a failed parse is modelled as `ConstructorFailed`, without its message or stack.
- `JavaLang.IsDigit`: only the ASCII digits count. `StringUtils.isNumeric` and `new Integer` also accept the other Unicode decimal digits, which the model treats as non-digits.
- `JavaLang.IntValue`: a Number other than Integer and Long (Short, Byte, Float, Double, BigDecimal, ...) is one `Num` case that records what its `intValue()` and `toString()` return. How each class computes them is not modelled.
- `ConnectionFactories.ConnectionFactory.Default`: Java leaves host and port null, and opening such a connection throws a NullPointerException from unboxing the port in `new TSocket`, outside the model's error handling. The model gives the empty host and port 0 instead, so that failure is not captured.
- `OperationUtils.Slice`: the store's side of a slice is modelled only to state what a predicate asks for. A reversed range keeps its bounds in forward order and returns the matching columns from the end of the row; Cassandra's own rules for reversed bounds are not modelled.
- Java version: the JDK is taken to be version 7 or later. `Integer.parseInt` and `Long.parseLong` accept a leading `+` (`JavaLang.ParseSigned`), and `Collections.sort` is TimSort. JDK 6 rejects `+5` and sorts by merge sort.
- Charset: the platform charset is taken to be ISO-8859-1. Characters outside it encode as `?`.
- Case folding: `compareToIgnoreCase` folds only ASCII letters.
- `Sorting.Sort`: `Collections.sort` (TimSort) is modelled as a stable insertion sort. Which pairs get compared differs, so the exact sort outcome under an inconsistent comparator is not the JDK's. The JDK's "Comparison method violates its general contract" exception is not modelled either.
  - The model compares an earlier element with a later one, while TimSort compares the later with the earlier. For a comparator that fails in one argument order only, the outcomes differ: a string followed by a null fails in the model but is left in order by the JDK, whose comparison with the null first is a tie. `ResultSets.SortedByStringAgainstNumber` states only a case that fails in both orders. `Sorting.SortPairFails` is about the model's own order of comparison.
- `ResultSets.NumberSorterConsistent`: the `intValue` difference can overflow, so it is modelled with 32-bit wrap-around (`Wrap32`). The Comparator contract is proved only for numbers below 2^30 in magnitude.
- `connector.Connection` and `connector.ConnectionFactory` are not part of this model. Both pools are modelled over `Connection` and `ConnectionFactory` from `org.nate.cassandra`.
- Connection accessors: both pools and the pool test call `getHost()` (and the test `getPort()`) on a connection, but `org.nate.cassandra.Connection` declares no such accessors. The model reads the connection's `host` and `port` fields directly (`c.host` in `ConnectorPool.ConnectionPool.ReleaseConnection`, `LegacyPool.ConnectionPool.ReleaseConnection` and `Pools.Checkin`), taking the accessors to return the values given to the constructor.
- The factory list is a value sequence in the pool, so sharing it with the caller (aliasing) is not modelled. The factories themselves are shared objects.
- `Queries.Query.Execute`: the effect on the pool of the worker around each scan is not modelled. The scan's failure is the wrapped error.
- `ListFunctions`: `filter`, `find` and `transform` are taken to run in list order and to propagate the first exception raw.
- Super columns: a slice column with `getColumn() == null` is not modelled, because the query always asks for standard columns.

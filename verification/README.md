# A verified model of jdbc_fdw

jdbc_fdw lets PostgreSQL query and modify tables of other databases through JDBC. This project models
its three working parts in Dafny and proves what they are for.

**The pushdown compiler** (`deparse.c`, the planner half of `jdbc_fdw.c`). A walker decides which
expressions may run remotely, tracking collations through a small lattice (`Shippable`). The deparser
prints what may be shipped (`Lexical`, `Tokens`, `ArrayText`, `ArrayPieces`, `Deparse`). `Reader` is the
other side: an ordinary precedence parser for the SQL that is printed. `Phrases`, `ArrayRead`,
`RoundTrip`, `Spacing` and `SelectRead` prove that the text reads back as the tree it was printed from.
`Semantics` gives both sides a three-valued meaning, and `ArrayCompare` and `Preservation` prove that
shipping preserves it. An array comparison prints without parentheses of its own: `Streams` and
`Positions` prove exactly where it may stand and what is read where it may not, `NestedChains` and
`ChainRows` exactly when that still has the right value; `ElementLiterals`, `ArrayLimits` and
`ElementLimits` prove exactly which array constants are read as the arrays they are, and `ConstantForms` what
each type of constant and each operator is read as. `Select`,
`RemoteServer` and `Scan` prove a base-relation scan right end to end, from its conditions through the text
of its statement to the rows put into the slot. `Grouping`, `UpperPaths` and `UpperAnswers` do the same for
aggregates and LIMIT over the planner's stages, `UpperConditions` exactly when these are pushed down.

**The row-at-a-time modification protocol** (`jdbc_fdw.c`, `jq.c`, `JDBCUtils.java`). `ModifySql` prints
and reads the statements with placeholders, `ModifyRun` prepares once and binds row by row, `ModifyTable`
relates whole runs to one simultaneous statement, and `ModifyEffect` says column by column what they leave.

**The handle table and the two connection caches** (`JDBCUtils.java`, `JDBCConnection.java`,
`connection.c`). `Handles` models the key search and the operations on result sets, `Connections` the C
table and the Java table under invalidation, release and transaction end.

Printing follows one pattern. A specification function gives the pieces a construct prints as, or None
where the deparser raises; the method that mirrors the C function appends the same text to the buffer.
The lemmas are about the specification. `Nodes` holds the expression trees; a node carries the catalog
row of its function or operator.

Where the code and its comments disagree, the code is modelled:

- `deparse.c:1635` says the deparser supports every node the walker accepts. It does not; `Printable`
  proves exactly when it does.
- `connection.c:172` says all connections that depend on a changed catalog entry are remade. In Java only
  the first match is closed; `Connections` proves exactly when that is enough, and that the two caches
  stay coherent all the same.
- Array comparisons are not self-parenthesized although `deparse.c:1638` asks for that. `Positions` proves
  the exact condition on the places of array comparisons under which the text still reads back, and
  `NestedChains` and `ChainRows` when chains that are regrouped have the right value all the same.
- The loop that prints the elements of an array constant does not handle null and empty arrays, null
  elements, or commas, quotes and backslashes in elements. `ElementLimits` proves that a comparison with an
  array constant is read back, and right, exactly when the array is null and not printed as an IN list, or
  has an element and, where its type is quoted, every element is present, free of commas, apostrophes and
  double quotes, and free of backslashes where the server takes backslashes as they are. `ArrayLimits` says
  on which rows the reading of an empty array is right by chance.
- Row-at-a-time UPDATE differs from the set-wise statement when key columns are assigned so that keys
  collide; `ModifyTable` proves exactly when.

`Reader` follows the grammar of the standard (ISO/IEC 9075-2): IS [NOT] NULL, IS DISTINCT FROM and IN stand
beside the comparisons and take a row value, not another predicate. So `Positions` is about the standard's
grammar. A server with another grammar may read more: PostgreSQL puts IS below IN and the comparisons, so it
reads `x IN (..) IS NULL`, which the standard does not have.

What is assumed stands in the preconditions: the two servers agree on the operators, functions, literals
and aggregates that are shipped (`Agrees`, `AggAgrees`); the remote dialect has a quote
character with no other lexical role and its keyword list includes the words of the reader
(`ValidDialect`); the local executor's own steps (grouping, windows, sorting and so on) are parameters, of
which local aggregation without GROUP BY is taken to compute the aggregates (`AggregatesFit`); key columns
are unique and not null (`UniqueKeys`, `NoNulls`); each user mapping belongs to one server (`Catalog`).

## Model

| member | source | states |
|---|---|---|
| Shippable.Walker | deparse.c:376-899 | The in-place walker accepts exactly the expressions `Walk` gives a collation context, merges that context into its parent's, and leaves the parent untouched when it rejects |
| Shippable.ListWalker | deparse.c:717-742 | A list is accepted exactly when `WalkList` accepts it, and its merged context bubbles up to a fresh parent |
| Shippable.ForeignLocCxt.Absorb | deparse.c:851-895 | The in-place merge leaves the parent with `Merge` of what it held and what the child contributes |
| Shippable.CheckForeignExpr | deparse.c:277-310 | True exactly when each subexpression, at any path of argument positions, may run remotely by itself, and none calls a mutable function, operator, DISTINCT or array operator |
| Shippable.AcceptedIffAllStand | deparse.c:376-899 | The walker accepts an expression if and only if each of its subexpressions stands: built-in function that is no explicit cast, built-in operator and type, supported plain aggregate above a scan, no parameter, no system column but ctid, default collation elsewhere, and an input collation that some input derives from a foreign column and none conflicts with; its context is the collation so derived |
| Shippable.ForeignIffShips | deparse.c:277-310 | The walker's verdict and the search for mutable calls together say the same as the test of every subexpression |
| Shippable.MergeIsJoin | deparse.c:851-895 | A merge loses neither contribution and rises no higher than any common upper bound, in the order NONE < SAFE(default) < SAFE(c) < UNSAFE |
| Shippable.LeqIsPartialOrder | deparse.c:851-895 | That order is reflexive, antisymmetric and transitive, so least upper bounds are unique |
| Shippable.ListIsLeastUpperBound | deparse.c:717-742 | The context of an accepted list is the least upper bound of the contexts of its elements |
| Shippable.ListAcceptance | deparse.c:717-742 | A list is accepted if and only if each element is |
| Shippable.ListNoneIsEmpty | deparse.c:851-895 | A context that stayed in state NONE always holds the invalid collation |
| Shippable.ListOrderIrrelevant | deparse.c:717-742 | Reordering or repeating list elements changes neither acceptance, nor state, nor the collation of a result that is not UNSAFE |
| Shippable.ArgumentOrderIrrelevant | deparse.c:480-899 | Permuting the arguments of any node but a subscript changes nothing its parent can observe |
| Shippable.AcceptedIsTraceable | deparse.c:376-899 | In an accepted expression every valid input collation is that of a column of the foreign table inside the node's own arguments; a SAFE context names such a column's collation |
| Shippable.UpperRelationHasNoInputCollation | deparse.c:744-830 | For an upper relation, whose id no variable carries, no accepted node has an input collation |
| Lexical.DeparseStringLiteral | deparse.c:1608-1630 | The character loop appends exactly the literal `StringLiteral` describes |
| Lexical.StringLiteralRoundTrip | deparse.c:1600-1630 | Reading the printed literal returns the value, with standard-conforming strings on or off; the E form is used exactly when there is a backslash |
| Lexical.QuoteIdentifier | deparse.c:2386-2492 | The scan, the keyword test and the copy return the name bare exactly when it may stand bare, otherwise in doubled quotes; None for a quote string of another length |
| Lexical.BareIffPlain | deparse.c:2386-2492 | A name stays bare if and only if the server cannot quote, or it starts with a lower-case letter or underscore, holds only those and digits, and is no keyword; every other name starts and ends with the quote character |
| Lexical.EncloseInQuotes | deparse.c:2472-2489 | The copy writes the quoted form and its terminator into exactly the bytes allocated |
| Lexical.QuoteBufferIsExact | deparse.c:2386-2492 | The bytes needed equal strlen + nquotes + 3 if and only if the quote character cannot stand bare or does not occur in the name |
| Lexical.IdentifierRoundTrip | deparse.c:2386-2492 | A reader of bare or delimited identifiers recovers every printed name |
| Lexical.RelationRoundTrip | deparse.c:1588-1599 | The printed `schema.table` reads back as its schema and table; an empty schema option counts as none |
| Lexical.RelationNamesDistinct | deparse.c:1588-1599 | Two relations that print alike are the same relation |
| Lexical.UnquotedReadsBackIffBare | deparse.c:2403-2409 | On a server that cannot quote, a raw name reads back if and only if it is a non-empty run of bare characters |
| Tokens.LexRender | deparse.c:1643-1705 | Scanning a well-spaced run of printed pieces gives exactly their tokens: nothing runs together and no comment ever starts |
| ArrayText.ScanInvertsArrayOut | deparse.c:2121-2205 | Over the text of any array, empty, with null elements, or with any characters in them, the loop prints the opening, then the elements in order with the separators between them, then the closing quote; in an element a comma comes out as the separator, a double quote as a backslash and a backslash as two |
| ArrayText.ScanOfEmptyArray | deparse.c:2121-2205 | Over the text of an empty array the loop prints what it prints around one element: an empty literal, or nothing for an unquoted type |
| ArrayText.CommaSplits | deparse.c:2143-2203 | An element that holds a comma is printed as two, wherever it stands in an array: the text is that of the array with its two halves in its place |
| ArrayText.NullElementIsText | deparse.c:2143-2203 | A null element anywhere in an array is printed as the text NULL is, so within quotes it becomes a string |
| ElementLiterals.OnlyIntactRead | deparse.c:2143-2203 | If the literal printed for an element reads as that element, then the element holds no comma, apostrophe or double quote, and no backslash where backslashes are plain, and its literal ends where it should; or the reading stopped inside the separator of an IN list |
| ElementLimits.QuotedArrayReadsIff | deparse.c:2121-2205 | A comparison of any standalone left side with a non-empty array constant of a quoted type, as IN list or as chain, reads back with all of its elements if and only if every element is present and intact in that sense |
| ElementLimits.ArrayConstantReadsIff | deparse.c:2117-2210 | The same over null, empty and filled array constants of every type: it reads back if and only if it is null outside of IN, or has an element and, where quoted, only intact ones |
| ElementLimits.ArrayConstantRightIff | deparse.c:2117-2210 | For servers that agree, exactly those are read back and have the value of the comparison on every row |
| Deparse.DeparseExpr | deparse.c:1643-1705 | The dispatcher appends exactly what `Print` gives for the node, and raises exactly when `Print` is None |
| Deparse.DeparseColumnRef | deparse.c:1396-1441 | The quoted remote name of the column is appended, or an error raised where there is no such column |
| Deparse.DeparseConst | deparse.c:1741-1797 | A constant is printed by its type: signed numbers in parentheses, B'...', true/false, literals, NULL |
| Deparse.DeparseNumber | deparse.c:1761-1783 | Text that looks like a number is printed bare, or in parentheses when signed; anything else between quotes |
| Deparse.DeparseArrayRef | deparse.c:1822-1871 | A subscripted array prints in parentheses, its container in parentheses unless it is a column, with lower bounds while there are any; what the text means is `RoundTrip.SubscriptReadsBack` |
| Deparse.DeparseFuncExpr | deparse.c:1877-1940 | An implicit cast prints only its argument; a call prints its schema if any, its name and its arguments |
| Deparse.DeparseOpExpr | deparse.c:1947-2000 | A prefix or infix operator prints in parentheses with blanks around it |
| Deparse.DeparseOperatorName | deparse.c:2008-2044 | LIKE and NOT LIKE by word, regular expression and foreign operators raise, others by symbol |
| Deparse.DeparseDistinctExpr | deparse.c:2050-2060 | IS DISTINCT FROM between parentheses |
| Deparse.DeparseBoolExpr | deparse.c:2283-2315 | NOT, or the arguments joined by AND or OR, between parentheses |
| Deparse.DeparseNullTest | deparse.c:2321-2331 | IS [NOT] NULL between parentheses |
| Deparse.DeparseArrayExpr | deparse.c:2337-2352 | ARRAY[...] with its elements between commas |
| Deparse.DeparseAggref | deparse.c:1485-1548 | The aggregate's name and its arguments or a star |
| Deparse.DeparseList | deparse.c:1914-1935 | A list with its separator between elements prints exactly the elements in order, and raises if one of them does |
| Deparse.DeparseScalarArrayOpExpr | deparse.c:2068-2265 | `= ANY` as IN, `<> ALL` as NOT IN, other operators as a chain; any other right operand raises |
| Deparse.DeparseConstArray | deparse.c:2117-2205 | A constant right operand; a null array prints NULL and returns without closing the list |
| Deparse.DeparseArrayText | deparse.c:2121-2205 | The character loop, with its pending left operand, appends exactly `ScanText` |
| Deparse.DeparseChain | deparse.c:2213-2256 | The comparisons with the elements of ARRAY[...], each in parentheses, joined by OR or AND |
| Phrases.SignedPhrase | deparse.c:1773-1781 | A signed number reads back as a sign over a number, never as the start of a comment |
| RoundTrip.ReadsBack | deparse.c:1643-1705 | For every readable tree whose text stands alone the parser returns exactly the erased tree from the printed tokens, in any context, and consumes exactly them |
| RoundTrip.BodyReadsBack | deparse.c:1184-1193 | Every readable tree, whatever the form of its text, reads back as the erased tree between parentheses |
| RoundTrip.PredicateReadsBack | deparse.c:2068-2256 | An IN or NOT IN list or a single comparison reads back wherever a comparison may stand |
| RoundTrip.ChainReadsBack | deparse.c:2213-2256 | The comparisons of an OR or AND chain read back in order, as parts of the row they stand in |
| RoundTrip.SubscriptReadsBack | deparse.c:1822-1871 | The subscript case: the same container, the same bounds in the order of the text, and which of them are slices |
| RoundTrip.OpReadsBack | deparse.c:1947-2044 | The operator case: the same operator over the same operands |
| RoundTrip.BoolReadsBack | deparse.c:2283-2315 | The boolean case: the same connective over the same arguments, in order, chains of its own kind merged into them |
| RoundTrip.FuncReadsBack | deparse.c:1877-1940 | The call case: the same schema, name and arguments |
| RoundTrip.DistinctReadsBack | deparse.c:2050-2060 | The IS DISTINCT FROM case |
| RoundTrip.NullTestReadsBack | deparse.c:2321-2331 | The null test case |
| RoundTrip.ArrayReadsBack | deparse.c:2337-2352 | The ARRAY[...] case |
| RoundTrip.AggReadsBack | deparse.c:1485-1548 | The aggregate case |
| Spacing.Spaced | deparse.c:1643-1705 | The pieces of every legible tree are well spaced, so the scanner finds their borders |
| Spacing.TextRoundTrip | deparse.c:1635-1705 | Reading the deparsed text returns exactly the erased tree and consumes all of it, for every readable tree whose text stands alone |
| Spacing.ConditionRoundTrip | deparse.c:1184-1193 | The text `(condition)` of every readable tree, array comparisons in all fitting places included, reads back as exactly the erased tree |
| Spacing.TextDeterminesTree | deparse.c:1635-1705 | Two readable trees with the same text are read alike |
| Printable.PrintableIffUnobstructed | deparse.c:1634-1705 | An accepted expression is printed without raising if and only if the deparser visits no regular expression operator, no variable of another relation and no array comparison with another kind of right side |
| Printable.ShippableImpliesPrintable | deparse.c:1634-1641 | An accepted expression free of the three shapes is always printed |
| Printable.RegexIsShippedButRaises | deparse.c:2030-2036 | A column matched by a regular expression operator is accepted and then raises |
| Preservation.ErasePreservesValue | deparse.c:1643-1705 | What the server reads for a readable tree has, on every remote row, the value the expression has on the local row it stands for, when the servers agree on primitives |
| Preservation.ArrayOpPreserved | deparse.c:2068-2265 | The array comparison case, under any evaluator: its tree has the value of the comparison with the array, constant or ARRAY[...], null array included |
| Preservation.SubscriptPreserved | deparse.c:1822-1871 | The subscript case: the bounds in the order of the text pick what the bounds in the order of the tree do |
| ArrayCompare.RewritingPreservesTruth | deparse.c:2093-2256 | An IN list, a NOT IN list or a chain has the three-valued result of the array comparison, for every non-empty element list and nulls on either side |
| ArrayCompare.InPreservesTruth | deparse.c:2093-2117 | The IN and NOT IN case |
| ArrayCompare.ChainPreservesTruth | deparse.c:2213-2256 | The OR and AND chain case |
| ArrayCompare.MergingPreservesTruth | deparse.c:2283-2315 | A chain merged into the AND or OR around it leaves its three-valued result unchanged |
| ArrayRead.ElementItems | deparse.c:2121-2205 | An IN list printed from an array constant decodes to exactly its elements, in order |
| ConstantForms.ConstantReads | deparse.c:1741-1797 | By type oid: int2, int4, int8, oid, float4, float8 and numeric read as the number, a sign over it where signed, or a string where the text is no number; bit and varbit as a bit string, bool as true exactly for `t`, every other type as the string |
| ConstantForms.NullConstantReads | deparse.c:1741-1752 | A null constant of any type reads as null |
| ConstantForms.ColumnReads | deparse.c:1396-1441 | A column reads under its remote name and the row identifier as ctid; a number of no column raises |
| ConstantForms.OperatorReads | deparse.c:1947-2044 | `~~` reads as LIKE, `!~~` as NOT LIKE, every other operator of symbols as itself, over its operands in order |
| ConstantForms.PatternOperatorsRaise | deparse.c:2008-2044 | The six pattern operators without a SQL word, and operators outside the catalog schema, raise |
| ConstantForms.ArrayConstantReads | deparse.c:2068-2265 | `= ANY` reads as IN, `<> ALL` as NOT IN, anything else as the OR or AND of its comparisons, over exactly the elements: numbers for int4[] and oid[], strings for every other type |
| ConstantForms.ArrayExpressionReads | deparse.c:2093-2256 | The same for ARRAY[...] over what its elements are read as |
| Deparse.ConstArrayText | deparse.c:2121-2205 | For an array constant of readable elements the characters the loop prints are exactly the text of well-formed pieces |
| Positions.ReadsRightIffFits | deparse.c:1634-1641 | A node over readable arguments reads back if and only if the form of each argument's text fits its place: no OR chain inside AND, no chain under NOT, no array comparison as an operand, under IS NULL or as a side of IS DISTINCT FROM; all other places are right |
| Positions.ReadableIffAllReadRight | deparse.c:1634-1641 | A legible tree is readable if and only if each of its subexpressions reads back |
| Positions.AndReadsAsRow | deparse.c:2283-2315 | What is read for any AND over readable arguments: the row of all their comparisons, grouped by precedence |
| NestedChains.NestedChainReads | deparse.c:2213-2256 | An OR chain of any length inside AND is read with its first comparison joined to the conditions before it and its last to those after it |
| NestedChains.NestedChainRightIff | deparse.c:2213-2256 | That reading has the value of the AND on a row if and only if no comparison that came loose is truer than the conditions it was joined to, for both kinds of arrays |
| ChainRows.ChainRowRightIff | deparse.c:2213-2256 | An AND over any number of OR chains, wherever they stand and whatever stands between them, is read as the OR of its groups; that has the value of the AND on a row if and only if no group is truer than any of the conditions |
| NestedChains.NestedChainAddsRows | deparse.c:2213-2256 | Where the conditions before the chain and its first comparison hold and a condition after it fails, the server keeps the row that the query refuses |
| NestedChains.NegatedChainRightIff | deparse.c:2213-2256 | NOT over a chain is read as negating its first comparison only; that has the value of the NOT if and only if the other comparisons do not matter |
| ArrayLimits.NullInUnreadable | deparse.c:2206-2210 | A null array under IN prints a condition no reader accepts: the list is never closed |
| ArrayLimits.NullArrayRightIff | deparse.c:2206-2210 | The condition over a null array reads back, as the null value it has, if and only if it is not printed with IN |
| ArrayLimits.EmptyArrayReads | deparse.c:2121-2205 | An empty array constant of a quoted type reads as the array of one empty string; of an unquoted type it cannot be read |
| ArrayLimits.EmptyArrayRightOnRowIff | deparse.c:2121-2205 | For any standalone left side, what is read for the empty array of a quoted type has the value of the comparison on a row if and only if the left side compares there with the empty string to true for ALL, to false for ANY |
| ArrayLimits.EmptyArrayRightIff | deparse.c:2121-2205 | Among arrays of elements that survive the loop, for a column, a strict operator and agreeing servers, the printed condition has the comparison's value on every row if and only if the array is not empty |
| ArrayLimits.NullRowDiffers | deparse.c:2121-2205 | The witness for a quoted type: on a row where the column is null what is read is null, and the comparison is not |
| ArrayLimits.EmptyArrayExprUnreadable | deparse.c:2213-2256 | An empty ARRAY[] prints as an empty list or as nothing, which no reader accepts |
| Select.ClassifyConditions | deparse.c:225-245 | The loop returns the shippable conditions and the others, each in order |
| Select.ClassifiedMembers | deparse.c:225-245 | A condition is on a side exactly if it is given and its shippability says so |
| Select.ClassifiedKeepsAll | deparse.c:225-245 | The two sides together are the conditions, with multiplicity |
| Select.ClassifiedInOrder | deparse.c:225-245 | Each side is the subsequence of exactly those conditions all of whose subexpressions may run remotely, or of the others |
| Select.UsedIffNeeded | jdbc_fdw.c:668-692 | An attribute is used if and only if a variable of the table with that number stands in an output expression or in a condition that cannot be shipped |
| Select.FdwRelationInfo.GetForeignRelSize | jdbc_fdw.c:668-692 | The planner record holds the split conditions and the attributes used by the output and the local conditions |
| Select.FdwRelationInfo.SplitScanClauses | jdbc_fdw.c:867-899 | The second pass puts each scan clause where the first put it and skips pseudo-constants |
| Select.FdwRelationInfo.GetForeignPlan | jdbc_fdw.c:867-1062 | The plan holds the statement's text, the retrieved attributes and the local expressions, or planning raises |
| Select.ScanSideMembers | jdbc_fdw.c:867-899 | Membership of the two sides of the scan clauses |
| Select.ScanSideInOrder | jdbc_fdw.c:867-899 | Of the scan clauses, exactly those that are no pseudo-constants and may run remotely are shipped, and exactly those that may not are kept, in order |
| Select.DeparseTargetList | deparse.c:1086-1132 | The used live columns, or all live ones under a whole-row reference, or NULL; and the list of their numbers |
| Select.DeparseRelation | deparse.c:1555-1601 | The quoted schema and table name |
| Select.AppendWhereClause | deparse.c:1150-1197 | WHERE and AND, each condition between parentheses |
| Select.AppendLimitClause | deparse.c:251-272 | LIMIT and OFFSET, each if it is there |
| Select.DeparseSelectStmt | deparse.c:905-980 | The whole statement: list, table, conditions, limits |
| SelectRead.WhereReads | deparse.c:1150-1197 | The WHERE clause reads back as the conjunction of the conditions' trees |
| SelectRead.SelectRoundTrip | deparse.c:905-1076 | The text of a SELECT reads back as its list, table, conditions and limits, and all of it is consumed |
| Scan.TupleTableSlot.Iterate | jq.c:716-768 | The slot is nulled, then column i is placed at the i-th retrieved attribute; at the end it is empty |
| Scan.RetrievedMembers | deparse.c:1086-1132 | The retrieved attributes are increasing, and are exactly the live ones that are used, or all live ones under a whole-row reference |
| Scan.PlanIsExact | jdbc_fdw.c:668-1062 | A plan fetches, in increasing order, exactly the live columns that the output or a condition that stays local mentions, and keeps exactly the scan clauses that are no pseudo-constants and may not run remotely, in order |
| Scan.PlacedAt | jq.c:716-768 | After placing, each retrieved attribute holds its own column and every other one is null |
| Scan.SlotHoldsUsed | jq.c:716-768 | The slot agrees with the full row on every used attribute, dropped columns and whole rows included |
| Scan.EvalIsLocal | jdbc_fdw.c:668-692 | Evaluation depends only on the attributes an expression mentions |
| Scan.RemoteFilter | deparse.c:1150-1197 | The server keeps exactly the rows on which every shipped condition is true |
| Scan.SidesCover | jdbc_fdw.c:867-899 | The remote and the local conditions together are the query's conditions |
| Scan.LocalsAgree | jdbc_fdw.c:668-692 | The local conditions have the same truth on the slot as on the full row |
| Scan.AllRows | jdbc_fdw.c:867-899 | Filtering remotely, placing and finishing locally is filtering full rows, in order |
| Scan.ScanStatementReads | deparse.c:1013-1076 | The scan's text reads back as the used columns, the table, the shipped conditions and the limits |
| Scan.ScanPreservesQuery | jdbc_fdw.c:668-899 | For every table, output list and conditions the foreign scan returns the rows and the output the query asks for, in order, from the text of its statement, with array comparisons in every place they fit |
| Scan.ExecScan | jdbc_fdw.c:1315-1330 | The row loop through the one slot returns exactly the finished rows |
| Grouping.ForeignGroupingOk | jdbc_fdw.c:2129-2307 | Refuses grouping sets and local conditions, otherwise collects the list to fetch, or refuses when an aggregate cannot be shipped |
| Grouping.ForeignListIffShips | deparse.c:277-310 | A list may run remotely exactly when each of its elements may |
| Grouping.AddTargetToTlist | jdbc_fdw.c:2181-2242 | A shippable target is fetched as it is; of another, its aggregates are |
| Grouping.TargetsCovered | jdbc_fdw.c:2181-2242 | When the aggregation is shipped, every output expression or each of its aggregates is fetched |
| Grouping.FetchedIsEnough | jdbc_fdw.c:2181-2242 | From the fetched values every covered expression gets its own value |
| Grouping.AggregatePreserved | deparse.c:1485-1548 | What the server computes for a fetched entry is what the local engine would compute over the rows |
| Grouping.AggregateShows | deparse.c:1485-1548 | An expression that holds an aggregate is read as one that does |
| UpperPaths.AddForeignGroupingPaths | jdbc_fdw.c:2316-2422 | The grouping stage: nothing with GROUP BY, sets, HAVING or no aggregates; otherwise the private data and the path |
| UpperPaths.AddForeignFinalPaths | jdbc_fdw.c:2431-2710 | The final stage with all of its refusals, in their order, and the path with LIMIT |
| UpperPaths.GetForeignUpperPaths | jdbc_fdw.c:2717-2771 | The hook: nothing unless the input is pushable, the stage handled and the output fresh |
| UpperPaths.SecondCallChangesNothing | jdbc_fdw.c:2740-2743 | A second call for the same relation changes nothing |
| UpperPaths.UnhandledStageBlocks | jdbc_fdw.c:2732-2748 | After a window function, DISTINCT or ORDER BY stage there is no private data and LIMIT is only local |
| UpperPaths.LimitIsPushedOnlyIf | jdbc_fdw.c:2454-2650 | A path with LIMIT exists only without local conditions, GROUP BY, HAVING, DISTINCT, window functions, ORDER BY, row locks, set-returning functions and WITH TIES, and never claims to be sorted |
| UpperConditions.PulledIffOutermost | jdbc_fdw.c:2205-2222 | What is pulled out of a target is exactly the variables and aggregates that stand in it at some path with no aggregate above |
| UpperConditions.FetchedList | jdbc_fdw.c:2181-2242 | The aggregation can be had if and only if every target ships whole or all its outermost variables and aggregates ship; the list fetched holds exactly the whole targets and the others' aggregates, each once |
| UpperConditions.GroupedPathIff | jdbc_fdw.c:2316-2422 | A foreign path for the aggregation is added if and only if there are aggregates, no GROUP BY, grouping sets, HAVING or local condition, and every target can be had |
| UpperConditions.LimitPathIff | jdbc_fdw.c:2431-2710 | A foreign path with LIMIT is added if and only if it is a SELECT with a needed LIMIT that has a count, without row locks, set-returning functions, WITH TIES, window functions, DISTINCT, ORDER BY and local conditions, its aggregation if any is pushed down, and its bounds may run remotely |
| UpperAnswers.BasePathAnswers | jdbc_fdw.c:768-799 | The plain scan path gives the query's selected rows, pseudo-constants gated above it |
| UpperAnswers.LimitedBaseAnswers | jdbc_fdw.c:2621-2650 | Without local conditions a scan with remote LIMIT and OFFSET gives what the local LIMIT would |
| UpperAnswers.GroupedPathAnswers | jdbc_fdw.c:2129-2307 | Remote aggregation gives the local aggregate row, limited if LIMIT was pushed too |
| UpperAnswers.EveryPathAnswersTheQuery | jdbc_fdw.c:2717-2771 | Every path in the final relation computes the answer of the whole query, whatever stages it has and wherever array comparisons fit |
| ModifySql.DeparseInsertSql | deparse.c:1207-1253 | INSERT with one placeholder per target, or DEFAULT VALUES |
| ModifySql.DeparseUpdateSql | deparse.c:1263-1297 | UPDATE with `c = ?` per target and `k=?` per key |
| ModifySql.DeparseDeleteSql | deparse.c:1308-1326 | DELETE with `k=?` per key |
| ModifySql.InsertRoundTrip | deparse.c:1207-1253 | The INSERT text reads back as its columns, the k-th bound to placeholder k |
| ModifySql.UpdateRoundTrip | deparse.c:1263-1297 | The UPDATE text reads back as its targets and its keys, their placeholders numbered in one go |
| ModifySql.DeleteRoundTrip | deparse.c:1308-1326 | The DELETE text reads back as its keys, numbered from 1 |
| ModifyRun.PlanForeignModify | jdbc_fdw.c:1475-1651 | The statement, and as targets in increasing order exactly the live columns for INSERT, exactly the updated ones for UPDATE; raises exactly for system columns, RETURNING and unquotable names |
| ModifyRun.PlannedTargets | jdbc_fdw.c:1540-1577 | In every plan the targets are exactly the columns the operation asks for, in increasing order |
| ModifyRun.KeyMembers | jdbc_fdw.c:1588-1606 | The key columns are exactly those with the key option, in increasing order |
| ModifyRun.AddForeignUpdateTargets | jdbc_fdw.c:1386-1463 | Junk columns for exactly the key columns, or an error exactly if there is none |
| ModifyRun.ModifyState.constructor | jdbc_fdw.c:1706-1777 | The state starts unprepared, with the junk position of every attribute |
| ModifyRun.ModifyState.Prepare | jdbc_fdw.c:3043-3071 | One statement is prepared and the flag set |
| ModifyRun.ModifyState.BindSqlVar | jq.c:1079-1110 | The value is bound at the number plus one |
| ModifyRun.ModifyState.BindJunkColumnValue | jdbc_fdw.c:1970-2012 | The carried key columns are bound in attribute order after what was bound before |
| ModifyRun.ModifyState.ExecPrepared | JDBCUtils.java:145-160 | The statement runs with what is bound, and then nothing is bound |
| ModifyRun.ModifyState.ExecForeignInsert | jdbc_fdw.c:1786-1839 | One execution with exactly the targets' values, preparing only if needed |
| ModifyRun.ModifyState.ExecForeignUpdate | jdbc_fdw.c:1844-1916 | One execution with exactly the targets' new values, then the key values |
| ModifyRun.ModifyState.ExecForeignDelete | jdbc_fdw.c:1921-1968 | One execution with exactly the key values |
| ModifyRun.ModifyState.Run | jdbc_fdw.c:1786-1968 | Over any number of rows the statement is prepared once, and the executions are exactly the rows' values at positions 1 to n |
| ModifyRun.RequestedKeysAreCarried | jdbc_fdw.c:1402-1453 | Once the planner carries the requested junk columns, each key's junk position holds the old value |
| ModifyRun.JunkValuesAreKeys | jdbc_fdw.c:1970-2012 | The bound key values are those of the old row, in attribute order |
| ModifyRun.UpdatePlaceholdersAgree | jdbc_fdw.c:1864-1890 | For an UPDATE the k-th placeholder in the text gets the value of the column printed there: targets from the new row, keys from the old one, nothing else bound |
| ModifyRun.DeletePlaceholdersAgree | jdbc_fdw.c:1935-1941 | The same for DELETE |
| ModifyRun.InsertPlaceholdersAgree | jdbc_fdw.c:1807-1817 | The same for INSERT |
| ModifyTable.ExecUpdateIsUpdated | deparse.c:1263-1297 | The statement with its parameters sets the values of exactly the rows with the bound key |
| ModifyTable.NoCollisionIsEnough | jdbc_fdw.c:1844-1916 | Without a collision each statement changes exactly the row it was made for |
| ModifyTable.RowAtATimeUpdateIff | jdbc_fdw.c:1844-1916 | Row-at-a-time UPDATE equals the set-wise one, in any row order, if and only if no row is given a key a later one was scanned with |
| ModifyTable.UnassignedKeysNeverCollide | jdbc_fdw.c:1844-1916 | If no key column is assigned, row-at-a-time UPDATE is the set-wise one |
| ModifyTable.ShiftedKeysCollide | jdbc_fdw.c:1844-1916 | Adding one to every key in ascending order merges rows |
| ModifyTable.RowAtATimeDelete | jdbc_fdw.c:1921-1968 | Row-at-a-time DELETE leaves exactly the rows that were not picked, in any order of the picks |
| ModifyTable.UpdateRefinesSetWise | jdbc_fdw.c:1475-1916 | A whole UPDATE, from the planned text through binding to the table, assigns exactly the updated columns, and is the set-wise one if and only if no keys collide |
| ModifyTable.DeleteRefinesSetWise | jdbc_fdw.c:1475-1968 | A whole DELETE, from the planned text through binding to the table, is the set-wise one |
| ModifyEffect.UpdateSetsUpdatedColumns | jdbc_fdw.c:1475-1916 | After a whole UPDATE without colliding keys each scanned row has its new values in exactly the updated columns and its old ones elsewhere, and no other row has changed |
| ModifyEffect.InsertAddsRows | jdbc_fdw.c:1475-1839 | After a whole INSERT the table has its old rows and one more for each row given, in order, with the values of exactly the columns that are not dropped |
| ModifyEffect.DeleteRemovesScanned | jdbc_fdw.c:1475-1968 | After a whole DELETE exactly the rows that were not scanned are left, in order |
| Handles.JDBCUtils.InitResultSetKey | JDBCUtils.java:838-856 | The loop ends, returns the first free key from the counter on, or raises and leaves the counter |
| Handles.FirstFreeIsFree | JDBCUtils.java:838-856 | The key returned is not live and within 1..MAX; the search raises exactly when all of 2..MAX are live |
| Handles.FirstFreeIsFirst | JDBCUtils.java:838-856 | The key given out is the counter itself if it is free, and otherwise every key on the way to it, round past the greatest integer to 2, is live |
| Handles.FirstFreeKeepsValid | JDBCUtils.java:95-99 | Giving out the key keeps the invariant that while the counter is 1 no other key is live |
| Handles.FullTableAtOneNeverEnds | JDBCUtils.java:838-856 | From a full table with the counter at 1 the search would never end; the invariant excludes that state |
| Handles.JDBCUtils.CreateStatementID | JDBCUtils.java:80-104 | A new cursor under the key found, or nothing when the search raises |
| Handles.JDBCUtils.CreatePreparedStatement | JDBCUtils.java:126-139 | A new prepared statement under the key found |
| Handles.JDBCUtils.ExecPreparedStatement | JDBCUtils.java:145-160 | Only a prepared handle can be executed; the affected rows are recorded under it |
| Handles.JDBCUtils.GetNumberOfAffectedRows | JDBCUtils.java:179-191 | What is recorded under the handle: nothing changed for a result set, an error without the handle |
| Handles.JDBCUtils.GetResultSet | JDBCUtils.java:196-255 | The next row, or after the last one null and the handle cleared; without a connection the end closes the cursor, raises and leaves the handle in the table |
| Handles.JDBCUtils.ClearResultSetID | JDBCUtils.java:110-117 | The handle is removed and no other, or nothing changes and it raises where there is no connection |
| Handles.JDBCUtils.FinalizeAllResultSet | JDBCUtils.java:886-889 | Nothing is live afterwards |
| Handles.StepKeepsValid | JDBCUtils.java:80-255 | Every operation keeps the key invariant and different objects under different handles |
| Handles.StepFrame | JDBCUtils.java:80-255 | An operation leaves every live handle it does not name as it was and never gives out a live one |
| Handles.StepKeepsObject | JDBCUtils.java:80-255 | A handle live before and after an operation stands for the same object |
| Handles.FetchingReadsInOrder | JDBCUtils.java:196-255 | Under any interleaving, with the connection coming and going, the fetches of one handle return its rows once each in order, then the end or an error |
| Handles.HandleKeepsObject | JDBCUtils.java:196-255 | Through any run a handle that is only fetched keeps its object and position; after its end it is gone, or closed where clearing it raised |
| Handles.NewStatementIsAtItsStart | JDBCUtils.java:80-104 | A statement gets a handle exactly if the connection is there and a key is free; the handle is new, and its cursor stands before the first row |
| Handles.NewStatementGivesItsRows | JDBCUtils.java:80-255 | From its creation on the fetches of a statement give its rows from the first one on, once each, then the end, whatever else runs |
| Handles.NewPreparedIsUnused | JDBCUtils.java:126-139 | Preparing gives a handle exactly if the connection is there and a key is free; the handle is new and nothing has been executed under it |
| Handles.PreparedStays | JDBCUtils.java:126-160 | Through any run that does not remove it a prepared statement stays under its handle, with the rows of its last execution |
| Handles.NewPreparedExecutes | JDBCUtils.java:126-191 | A new prepared statement can be executed until it is removed, and reports the rows of its last execution, none at first |
| Handles.RemovalIsExact | JDBCUtils.java:110-117 | Clearing removes the handle and no other, or nothing without a connection; finalizing removes all; what is removed can no longer be fetched from |
| Connections.Backend.GetConnection | JDBCConnection.java:95-149 | The cached connection of the mapping unless it is invalidated, otherwise a new one in its place |
| Connections.Backend.GetUtilsObj | connection.c:87-165 | The flag is set, the entry found or made, and connected if it was empty; on failure it stays empty |
| Connections.Backend.JavaInvalidate | JDBCConnection.java:42-83 | The first match is closed, or all on a reset |
| Connections.Backend.InvalCallback | connection.c:184-213 | All matching C entries are cleared, then Java is told |
| Connections.Backend.ReleaseUtilsObj | connection.c:335-361 | Every entry is emptied |
| Connections.Backend.XactCallback | connection.c:432-464 | Nothing without the flag; on COMMIT or ABORT entries, results and flag are cleared |
| Connections.InvalidateKeepsCoherent | connection.c:184-213 | Although Java closes only its first match, no C entry is left with a closed connection |
| Connections.StepKeepsCoherent | connection.c:87-464 | Every event keeps both caches coherent and the flag right |
| Connections.RunsStayCoherent | connection.c:87-464 | In every run each live entry's connection is not invalidated, un-invalidated means open, and anything live implies the flag |
| Connections.TransactionEndReleasesAll | connection.c:432-464 | After COMMIT or ABORT in any run no entry or result is live and the flag is false |
| Connections.RequestYieldsObject | connection.c:87-165 | In every run a request leaves its entry with an object exactly if it had one or connecting succeeded; an object is kept with its open connection, and a new one holds the mapping's connection, cached and open, the cached one if that was open |
| Connections.RequestFrame | connection.c:87-165 | A request changes no other entry and no other mapping's connection, and closes none |
| Connections.InvalidationEmptiesMatches | connection.c:184-213 | An invalidation empties exactly the entries with its hash value, all for zero, and changes nothing else in the C table |
| Connections.OtherEventsKeep | connection.c:335-464 | Result sets come and go without touching anything else; a transaction event other than the end, or one without a request before it, changes nothing; release and end empty every entry and keep its hash values |
| Connections.JavaInvalidationIsExact | JDBCConnection.java:42-83 | Java closes exactly the first connection it visits with the hash value, or on a reset all it visits, and leaves every other as it was |
| Connections.InvalidationCompleteIff | JDBCConnection.java:56-83 | Java's invalidation reaches all matching connections if and only if the first match is the only one still valid |
| Connections.MappingInvalidationComplete | JDBCConnection.java:72-83 | With distinct hash values per mapping, invalidating a mapping is always complete |
| Connections.StaleConnectionIsReused | JDBCConnection.java:56-67 | With two mappings on one server, the second keeps its stale connection after the server changes, and it is reused |

## Left out

- JNI calls, the JVM's life cycle, attaching and detaching threads, class loading and JDBC drivers: only the abstract connection, statement, result set and table are kept.
- Conversion of values between PostgreSQL and Java types, in both directions: values are opaque.
- Catalog lookups that fail: a node already carries the row of its function or operator.
- Cost and selectivity estimation, remote estimates, EXPLAIN, ANALYZE, IMPORT FOREIGN SCHEMA and option validation.
- Thread interleavings: the key search locks per instance and puts outside the lock, so uniqueness of keys is proved for sequential runs only.
- PostgreSQL versions other than the current ones behind `#if`, memory contexts and nested settings.
- Deparse.DeparseFuncExpr: VARIADIC before the last argument and the type names of explicit casts are not printed; calls and implicit casts are.
- Deparse.DeparseAggref: VARIADIC, ORDER BY within the call and the text of FILTER are not printed; an aggregate with a filter is taken to raise, and DISTINCT is printed but not read back.
- Select.FdwRelationInfo.GetForeignPlan: the base-relation branch; the one for upper relations is in `UpperPaths` and `Grouping`. The FOR UPDATE flag, which has no part in the statement, is left out.
- ArrayText.ScanInvertsArrayOut: arrays of more than one dimension, whose text has braces between the elements, are not covered.
- ArrayLimits.EmptyArrayRightIff: the left side is a column, the operator strict and the elements intact; `EmptyArrayRightOnRowIff` is for any left side and operator, row by row, and the other elements are in `ElementLimits.ArrayConstantRightIff`.
- ElementLimits.ArrayConstantRightIff: elements of int4[] and oid[] are what these types print, numbers or null.
- Lexical.QuoteIdentifier: a quote character that can itself stand bare in a name is excluded, since the copy would then need more bytes than are allocated, as `QuoteBufferIsExact` shows.
- RoundTrip.ReadsBack: implicit casts, relabelings and the types of literals are not in the text, so the tree read is the erased one.
- Scan.ScanPreservesQuery: system columns evaluate to null; shipped conditions are those the reader accepts, array comparisons in all fitting places included. What is left out is exactly delimited: misfit places by `Positions.ReadsRightIffFits`, array constants that are not read back by `ElementLimits.ArrayConstantReadsIff`.
- Grouping.AggregatePreserved: the left side of a comparison with a null array, which is not printed, is taken to hold no aggregate.
- Parameterized scans: the wrapper makes no such path, so the scan clauses are the table's own conditions in some order.
- UpperAnswers.EveryPathAnswersTheQuery: the planner's choice between paths is not modelled, the claim holds for all of them; private data on ordered relations never arises, as `LimitIsPushedOnlyIf` shows.
- Select.AppendLimitClause: the context of the LIMIT clause has no quote string in the code; the model uses the statement's, and limits hold no names once the planner has folded them.
- The set-returning form that reads a whole result into a tuple store (`jq_iterate_all_row`): its placement loop is that of the scan without pruning.
- The HAVING branch of the grouping test: the branch is never reached, since queries with HAVING are refused before.
- ModifyRun.ModifyState.Run: an execution that raises ends the statement, so the model has no run that goes on after one.
- ModifyTable.RowAtATimeUpdateIff: a server that enforces uniqueness after each statement would raise on the collision instead of merging rows.
- Closing a JDBC connection does not raise in the model, so an invalidated connection is always closed.
- The use of a C entry by a scan that is still running while the entry is cleared.
- C strings are sequences of characters without a terminator inside; encodings are not modelled.

# SequoiaDB: condition pushdown, index ranges, connection handling, cluster planning

A Dafny model of the parts of SequoiaDB where correctness is least visible from
one function at a time:

- **Condition pushdown** in the MySQL storage engine. MySQL walks a WHERE
  condition and hands over its items one by one; a shift-reduce parser turns them
  into a SequoiaDB match object and a status that decides whether MySQL may drop
  its own filter. `Sql` gives conditions their three-valued meaning, `Match` gives
  match objects theirs, `CondItem` and `CondMachine` say what the parser computes,
  `CondContext` holds the objects it computes with, `CondTranslate` is a recursion
  over the condition tree that never mentions the parser, `CondRefine` proves the
  two equal, `CondFn` says what the match object of one function accepts, `CondSound`
  what pushing a whole condition does to the answer, and `CondWitness` shows why each
  hypothesis is there.
- **Index ranges** (`IndexKey`, `IndexRange`, `IndexOrder`, `IndexScan`): composite key
  bytes to values, key intervals to match objects, the values each part takes between
  two keys, and the rows a scan asks for against those it gets.
- **Connections** (`ConnPool`, `ConnPoolObject`, `Session`): reference counts and
  eviction in the pool, and transactions and retry against a network that may fail
  at any call.
- **Cluster scripts** (`Extend`, `Shrink`): adding nodes with rollback, and staging
  the removal of nodes.
- **Build dependencies** (`LibDeps`): the memoised depth-first closure.

## Assumptions

MySQL's traversal is not in the repository; `Tokens` fixes it: an AND/OR item is
followed by its operands and a NULL, a function by its arguments. The hypotheses of
the pushdown theorems are named predicates: `PlainFn` (no AND/OR below a function;
every function has the number of arguments SQL gives it, at least one), `HasList` (IN has
a list) and, for safety alone, `CutShort` and `Spelled`; nothing is asked of the
constants by `PushdownPreservesMeaningIff`. Match objects mean what
the server makes of them: an `$and` or `$or` of nothing accepts every row
(SequoiaDB/engine/mth/mthMatchLogicNode.cpp:166-198, 273-277), and every comparison,
`$ne` and `$nin` included, rejects an absent field (`Rejecting`,
SequoiaDB/engine/mth/mthMatchOpNode.cpp:2327-2365 and 3089-3092; of the operators used
only `$isnull` accepts one). A NULL column is an absent field. `NoSelectedRowIsLost`
does not even need that: it holds for every rule on absent fields. Column values are
integers standing for ranks in the column's order; numbers and dates are converted to
their rank. A string or decimal constant is written as the item's name, which is modelled
as a rank of its own.

Rollback of an extension makes one attempt for each entry, and every attempt has its own
answers. It is right under `NoneStrikes`, which `RollbackIsRightIff` shows to be the exact
condition. An extension that lists no host and service under two groups meets it
(`OneGroupNeverStrikes`).

Three inputs make the source undefined and are given an outcome here: a first item
that is neither a function nor AND/OR is treated as the case where no item could be
created, a NULL parameter met while building a match object gives an error code,
and a thread check on a handler without a collection fetches one.

Reference-count operations and `connect` are single steps, as they are for one
thread. `createNode` registers and tags a node in one step. The release build is
modelled: debug assertions do nothing.

Lemmas carry `{:induction false}`: every induction is written out, and nothing rests on
hypotheses the verifier adds by itself.

## Where the code departs from its purpose

- An OR with an operand such as `(b = 2) = 1` after others is cut short: the operands
  before it are pushed as the whole `$or`. `PushdownPreservesMeaningIff` says exactly
  which rows are lost. With such an operand in first place nothing is lost
  (`NestedFirstIsHarmless`).
- What is written for a constant need not be its value. An integer or real constant that
  is NULL is written as 0; a string or decimal, NULL or not, as the item's name, whatever
  it evaluates to (driver/mysql/sdb_item.cc:369-376, 413-465). NULLs lose no row
  (`NoSelectedRowIsLost`) but can admit rows that are not selected; a name that does not
  spell its value does both (`NamedConstantLosesRow`). `FnIsExactIff` says for each
  function when it matters, `PushdownPreservesMeaningIff` for each row.
- An unsigned 4-byte key value of at least 2^31 is appended as a negative number,
  because the BSON builder casts unsigned to int, and an unsigned 8-byte one of at least
  2^63 is left out. `BoundLosesNothingIff` and `BoundIsExactIff` say what each does to a
  bound.
- A range over several key parts is translated part by part, without regard to whether
  its ends are included. `RangeIsSoundIff` says exactly when that loses rows.
- Rollback of an extension leaves a data group behind when the group was created but its
  node was refused, and deletes one that existed without nodes. `GroupIsRestoredIff`
  gives the exact condition. A node listed under two groups can cost an old node
  (`TwoGroupsDeleteOldNode`, `SecondAttemptDeletesOldNode`).
- A dependency cycle that comes full circle at a node is dropped by the node that
  lists it as a child, which then returns and caches what it had gathered so far, and
  nodes no cycle touches are lost (`NodeIsLost`). `StopsAt` says what such a cache entry
  holds, and `EntryIsDetermined` that nothing else could be there.

## Model

| member | source | states |
|---|---|---|
| Sql.ConstIgnoresRow | driver/mysql/sdb_item.cc:327-331 | A constant item has the same value on every row, so reading it at parse time is sound |
| CondMachine.StatusIsMonotone | driver/mysql/sdb_condition.cc:122-173 | Over any token stream cut anywhere the status only moves towards unsupported, through clean-up and conversion; once parsing gave up, later tokens change nothing at all |
| CondMachine.FrozenOnceGivenUp | driver/mysql/sdb_condition.cc:156-173 | In the two give-up states every token leaves current item, stack and status as they are |
| CondMachine.LogicStaysAtBottom | driver/mysql/sdb_condition.cc:166-228 | Whatever tokens arrive, an AND/OR item is only ever at the bottom of the stack |
| CondRefine.RunFn | driver/mysql/sdb_condition.cc:166-228 | Feeding a whole function tree either moves its finished item into the item below, or leaves the parser stuck above the items that were there, and which of the two is decided by nesting alone |
| CondRefine.RunOperand | driver/mysql/sdb_item.cc:10-40 | What one function operand does to the root AND/OR item: appended, skipped with the status lowered, or parsing ends with the root unchanged |
| CondRefine.RunAnd | driver/mysql/sdb_condition.cc:166-228 | From any point of a root AND, parsing the remaining operands ends with the status and match object of the scan over them |
| CondRefine.RunOr | driver/mysql/sdb_condition.cc:166-228 | The same for a root OR that has taken in every operand so far |
| CondRefine.RunRootFn | driver/mysql/sdb_condition.cc:166-228 | A single function as the whole condition |
| CondRefine.PopAllUnwinds | driver/mysql/sdb_condition.cc:36-79 | The final clean-up discards unfinished function items down to the bottom item |
| CondRefine.ParserComputesTranslation | driver/mysql/sdb_condition.cc:36-349 | For every condition whose functions have the number of arguments SQL gives them, of any size, the parser's status and match object are those of the recursion over the tree; an item that waited for more or fewer arguments would not get there |
| CondFn.CmpIsFaithful | driver/mysql/sdb_item.cc:692-784 | A row a comparison selects is accepted by its match object, NULL constant or not and under any rule for absent fields, if the constant is spelled; exactly the selected rows are if it is written as its value; column against column always |
| CondFn.BetweenIsFaithful | driver/mysql/sdb_item.cc:796-881 | The same for BETWEEN and, through its two-sided OR, NOT BETWEEN; exact also when the bounds and what is written for them both leave nothing between |
| CondFn.InIsFaithful | driver/mysql/sdb_item.cc:893-953 | The same for IN and NOT IN, with SQL's treatment of NULL; exact when the list and what is written for it hold the same values and, for NOT IN, no NULL |
| CondFn.FnIsFaithful | driver/mysql/sdb_item.cc:610-953 | Every function that gets a match object: no selected row is refused when its constants are spelled, NULL or not, and the object is exact when they are written right |
| CondFn.AsWrittenMatches | driver/mysql/sdb_item.cc:313-465 | The function with each constant replaced by what is written for it has the same match object |
| CondFn.FnMeansAsWritten | driver/mysql/sdb_item.cc:313-465 | The match object of a function accepts exactly the rows the function selects with its constants as written, whatever the constants are |
| CondFn.FnIsExactIff | driver/mysql/sdb_item.cc:313-465 | A match object is exact on all rows if and only if: for a comparison, constant on either side, the constant is written as its value; for BETWEEN and NOT BETWEEN, both bounds are, or the interval is empty both as meant and as written, where for BETWEEN a NULL bound makes it empty; for IN, the values written are those of the list, NULLs aside; for NOT IN, also none is NULL |
| CondFn.HasMatchIff | driver/mysql/sdb_item.cc:313-953 | A function has a match object if and only if, by its shape: a comparison has a column on either side and a column or a constant its type can take on the other; BETWEEN and IN a column first and such constants after it, but no IN list on a binary or date column; IS [NOT] NULL a column |
| CondFn.WhatAComparisonSends | driver/mysql/sdb_item.cc:313-465 | A comparison sends the value of an integer, real or date constant, 0 for an integer or real that is NULL, and the name of a decimal or a string unless it is a placeholder for a binary column |
| CondFn.NumbersAndDatesAreSpelled | driver/mysql/sdb_item.cc:313-465 | A function over a date or a numeric column without decimal constants is spelled, which is what safety asks of it |
| CondSound.AndScanMeans | driver/mysql/sdb_item.cc:10-40 | The match object of an AND accepts exactly the rows that all pushed operands, as written, select |
| CondSound.AndScanKeepsSelected | driver/mysql/sdb_item.cc:10-40 | Skipping or stopping at operands of an AND loses no row they all select, constants being spelled |
| CondSound.SupportedAndTakesAll | driver/mysql/sdb_condition.cc:122-154 | An AND that stayed supported pushed every operand |
| CondSound.OrScanStatus | driver/mysql/sdb_condition.cc:122-154 | The status of an OR, from which operands come before the first nested one and whether these all have match objects |
| CondSound.OrScanMeans | driver/mysql/sdb_item.cc:52-70 | The match object of an OR accepts exactly the rows that some operand before the cut, as written, selects; every row if there is none |
| CondSound.OrScanTakesIn | driver/mysql/sdb_item.cc:52-70 | It accepts what those operands select under any rule for absent fields, constants being spelled |
| CondSound.FilterMeansAsPushed | driver/mysql/ha_sdb.cc:1907-1926 | The match object sent accepts exactly the rows selected by the pushed part of the condition with its constants as written, for every regular condition |
| CondSound.NoSelectedRowIsLost | driver/mysql/ha_sdb.cc:1907-1926 | A row the condition selects survives the pushed filter and what MySQL keeps, for every regular condition that is not cut short and whose constants are spelled, whatever is NULL and under every rule for absent fields |
| CondSound.DroppedFilterMeans | driver/mysql/ha_sdb.cc:1917-1921 | When MySQL drops its filter the whole condition was pushed, and a row survives exactly when the condition with its constants as written selects it; an OR of nothing is the one exception |
| CondSound.FilterIsDroppedIff | driver/mysql/ha_sdb.cc:1917-1921 | For functions without nested ones, alone or under an AND or OR, MySQL drops its filter if and only if every one of them has a shape that can be pushed |
| CondSound.AndPushesAll | driver/mysql/sdb_item.cc:10-40 | The match object of an AND of such functions accepts a row if and only if every one that can be pushed, as written, selects it |
| CondSound.NestedFirstIsHarmless | driver/mysql/sdb_condition.cc:46-67 | An OR whose first operand is nested sends an `$or` of nothing and keeps its filter, so that its meaning is kept on every row |
| CondSound.CutShortKeepsIff | driver/mysql/sdb_condition.cc:46-67 | A selected row survives an OR cut short if and only if an operand before the cut, as written, selects it |
| CondSound.PushdownPreservesMeaningIff | driver/mysql/ha_sdb.cc:1907-1926 | For every regular condition, whatever its constants, pushing it keeps its meaning on a row if and only if none of these holds: an OR was cut short, the row is selected and no operand before the cut, as written, selects it; the row is selected but not by what was pushed, which takes a constant whose name does not spell it; the filter was dropped and the condition as written selects the row but the condition does not, which includes an OR of nothing |
| CondSound.WrittenRightKeepsMeaning | driver/mysql/ha_sdb.cc:1907-1926 | A regular condition whose constants are written right keeps its meaning on every row, unless an OR is cut short or has no operand |
| CondWitness.CutShortOrLosesRow | driver/mysql/sdb_condition.cc:46-67 | A condition with an OR cut short and a selected row that is lost |
| CondWitness.NestedFirstKeepsRow | driver/mysql/sdb_condition.cc:46-67 | The same operands with the nested one first: the `$or` sent is empty and the row survives |
| CondWitness.NullInListAdmitsRow | driver/mysql/sdb_item.cc:893-953 | IN with a NULL in its list, the filter dropped, and a row returned that is not selected |
| CondWitness.NamedConstantLosesRow | driver/mysql/sdb_item.cc:413-425 | A string constant whose name does not spell it: one row is lost and another returned that is not selected |
| CondWitness.LogicBelowFunctionLosesRow | driver/mysql/sdb_condition.cc:181-207 | With an OR below a function the inner operands become conjuncts of the outer AND and a selected row is lost |
| CondWitness.NoArgumentFunctionAdmitsRow | driver/mysql/sdb_item.cc:566-591 | A function without arguments swallows the next operand, and a row that fails it is returned |
| CondContext.SdbItem.PushToken | driver/mysql/sdb_item.cc:42-50 | The item after a MySQL item or the end marker is pushed into it, and the code returned |
| CondContext.SdbItem.PushItem | driver/mysql/sdb_item.cc:10-40 | Pushing a finished item: the match object is collected, and the pushed item is deleted exactly when the push succeeds |
| CondContext.SdbItem.CmpToBson | driver/mysql/sdb_item.cc:692-784 | The loop that takes parameters off the list returns the comparison's match object, operator inverted when the constant came first |
| CondContext.SdbItem.BetweenToBson | driver/mysql/sdb_item.cc:796-881 | The match object of BETWEEN and NOT BETWEEN, or the first conversion error |
| CondContext.SdbItem.InToBson | driver/mysql/sdb_item.cc:893-953 | The loop over the list returns all values in order, or the first conversion error |
| CondContext.SdbItem.ToBson | driver/mysql/sdb_item.cc:52-70 | The match object of the item, by kind; an OR that failed gives none |
| CondContext.SdbCondCtx.UpdateStat | driver/mysql/sdb_condition.cc:122-154 | The new status, nothing else changed |
| CondContext.SdbCondCtx.Pop | driver/mysql/sdb_condition.cc:81-120 | The recursive move of finished items, with every item still owned once |
| CondContext.SdbCondCtx.Merge | driver/mysql/sdb_condition.cc:81-120 | The current item pushed into the one below; the pushed item is deleted once, whoever deletes it |
| CondContext.SdbCondCtx.Open | driver/mysql/sdb_condition.cc:211-221 | A new item above the current one, owned once |
| CondContext.SdbCondCtx.Push | driver/mysql/sdb_condition.cc:166-228 | One token, for any token in any state, with every item ever created held once and live or deleted once |
| CondContext.SdbCondCtx.PopAll | driver/mysql/sdb_condition.cc:36-79 | The clean-up loop, with the same ownership |
| CondContext.SdbCondCtx.Clear | driver/mysql/sdb_condition.cc:15-34 | After the destructor every item ever created has been deleted exactly once |
| CondContext.SdbCondCtx.ToBson | driver/mysql/sdb_condition.cc:308-325 | The final match object and status |
| CondContext.SdbCondCtx.ParseCondition | driver/mysql/sdb_condition.cc:327-349 | The whole traversal and clean-up, for any token stream |
| CondContext.HaSdb.CondPush | driver/mysql/ha_sdb.cc:1907-1926 | The stored match object and the residual condition; nothing is touched when other tables are involved |
| IndexRange.BoundIsExactIff | SequoiaDB/engine/bson/bsonobjbuilder.h:241-244 | The condition sent for a bound keeps exactly the rows the bound is meant to keep if and only if its value is not in the upper half of an unsigned 4- or 8-byte part; the one exception is the largest 8-byte value as an upper bound |
| IndexRange.BoundLosesNothingIff | SequoiaDB/engine/bson/bsonobjbuilder.h:241-244 | A bound loses no row if and only if it is a lower bound or its value is not wrapped |
| IndexKey.UnsignedKeyVal | driver/mysql/ha_sdb.cc:631-682 | What is appended for the bytes of an unsigned part, including the bound left out and the cast |
| IndexKey.SignedKeyVal | driver/mysql/ha_sdb.cc:709-765 | The two's complement value of the bytes, for all five lengths |
| IndexKey.SignExtend | driver/mysql/ha_sdb.cc:739-747 | Setting the fourth byte when bit 23 is set gives the 24-bit signed value |
| IndexKey.SignedRoundTrip | driver/mysql/ha_sdb.cc:709-765 | Bytes that encode a value read back as that value |
| IndexRange.KeyVal | driver/mysql/ha_sdb.cc:644-648 | A part present and not NULL in the key is read from its own bytes |
| IndexRange.KeyRangeObj | driver/mysql/ha_sdb.cc:684-707 | The conditions of one part: equality from the start key, or both bounds; which rows they let through is `RangeMeans` |
| IndexRange.RangeMeans | driver/mysql/ha_sdb.cc:684-790 | The match object accepts a row, asked for or not, if and only if every part of it is equal to what is appended for the start key, or between what is appended for the two keys; a bound left out accepts every value |
| IndexRange.BuildMatchObj | driver/mysql/ha_sdb.cc:926-1043 | With running pointers and shifted maps every part gets the conditions of its own start and end values |
| IndexScan.AskedMeans | driver/mysql/ha_sdb.cc:954-959 | The rows a scan asks for, with open or closed ends and NULLs in either key, are those between two closed bounds, or none |
| IndexOrder.LeastIsReached | driver/mysql/ha_sdb.cc:961-1037 | Between two bounds that do not cross some row takes the least value of a part: its own lower bound while no earlier part is free, the least of its type then |
| IndexOrder.LeastIsLeast | driver/mysql/ha_sdb.cc:961-1037 | No row between the bounds goes below it |
| IndexOrder.MostIsReached | driver/mysql/ha_sdb.cc:961-1037 | The same for the largest value of a part |
| IndexOrder.MostIsMost | driver/mysql/ha_sdb.cc:961-1037 | and no row goes above it |
| IndexScan.EqualityMeans | driver/mysql/ha_sdb.cc:777-781 | The rows an equality returns, asked for or not, are those equal to what is appended for each part of the key |
| IndexScan.EqualityIsExact | driver/mysql/ha_sdb.cc:777-781 | With a key that is appended as it is these are exactly the rows asked for |
| IndexScan.EqualityIsKeptIff | driver/mysql/ha_sdb.cc:631-707 | A row asked for by an equality is kept if and only if no value of the key is an unsigned 4-byte value of at least 2^31 |
| IndexScan.AskedRowIsKeptIff | driver/mysql/ha_sdb.cc:631-707 | For a range that is a box, a row asked for is kept if and only if no upper bound is an unsigned 4-byte value of at least 2^31 |
| IndexScan.EqualPrefixIsBoxed | driver/mysql/ha_sdb.cc:961-1037 | Bounds that agree on every part before the last one given make the range a box, open or closed |
| IndexScan.LeavesTheBox | driver/mysql/ha_sdb.cc:961-1037 | When a condition refuses a value its part takes in the interval, the scan asks for a row of the right types that the condition refuses |
| IndexScan.RangeIsSoundIff | driver/mysql/ha_sdb.cc:926-1037 | A scan keeps all the rows it asks for if and only if it asks for none, or no upper bound is wrapped and no condition of a part refuses a value the part takes in the interval: for open and closed ends, parts of any kind, bounds anywhere in their types, left out or wrapped, and NULLs in either key |
| IndexScan.WrappedEqualityLosesRow | driver/mysql/ha_sdb.cc:661-666 | An equality with 3000000000 loses its row |
| IndexScan.ClosedEndLosesRow | driver/mysql/ha_sdb.cc:961-1037 | A row inside a two-column range with a closed end that is lost |
| IndexScan.OpenEndKeepsRows | driver/mysql/ha_sdb.cc:961-1037 | The same keys with an open end: every row asked for is kept |
| Session.SdbConn.Connect | driver/mysql/sdb_conn.cc:41-71 | A connection found valid is left alone with its transaction; one found broken always loses the flag and is always reconnected once, into a new session or with an error, and the code says which |
| Session.SdbConn.BeginTransaction | driver/mysql/sdb_conn.cc:73-100 | Success exactly when the flag is on; with the flag on nothing is sent, otherwise BEGIN is sent to the session, and after a network error, and only then, there is one connect and one more BEGIN; the code is the answer to the last one |
| Session.SdbConn.CommitTransaction | driver/mysql/sdb_conn.cc:102-124 | The flag is off afterwards; an open transaction is ended in its own session and the code is what the server answered to the commit, so that success means it was carried out; a connect follows exactly after a network error |
| Session.SdbConn.RollbackTransaction | driver/mysql/sdb_conn.cc:126-139 | The flag is off afterwards and the end was sent to the session of the transaction; a connect follows exactly after a network error; success is reported whatever was answered |
| Session.SdbConn.Operation | driver/mysql/sdb_cl.cc:264-344 | In a transaction sent exactly once, outside at most three times and again only after network errors, never into a transaction; outside one a network error is returned only after three sends or a connect that failed; the answer is that of the last send in the log, and a connect follows it exactly after a network error |
| Session.SdbConn.Attempt | driver/mysql/sdb_cl.cc:264-270 | One send over the current session, marked with whether a transaction is open |
| Session.SdbConn.Run | driver/mysql/sdb_conn.cc:41-144 | Over any sequence of calls and any network, the flag says exactly that a transaction is open in the current session; every operation was sent, and none is open after a commit or a rollback |
| Session.OpenTxnMeansBegan | driver/mysql/sdb_conn.cc:73-100 | An open transaction was begun with success in its session, and since then there were only operations and checks that found the connection valid |
| Session.SentInOneUnbrokenTransaction | driver/mysql/sdb_cl.cc:264-344 | An operation sent in a transaction follows the successful BEGIN of its own session with nothing in between but operations of that transaction and checks that found the connection valid |
| ConnPool.EvictKeepsInv | driver/mysql/sdb_adaptor.cc:54-89 | Eviction keeps every count equal to the number of holders and every outside pointer live |
| ConnPool.GoneIsUnheld | driver/mysql/sdb_conn.cc:242-255 | Collections of an evicted connection have count one, which is what its destructor asserts, and no outside pointer reaches it |
| ConnPool.EvictLeavesHeld | driver/mysql/sdb_adaptor.cc:54-89 | Above the limit, after eviction every connection left is held by a pointer outside the pool or has a collection that is |
| ConnPool.DropConn | driver/mysql/sdb_conn.cc:321-350 | Letting go of a connection pointer keeps the invariant, and the count was at least two |
| ConnPool.DropCl | driver/mysql/sdb_cl.cc:519-550 | The same for a collection pointer |
| ConnPool.LetGo | driver/mysql/sdb_conn.cc:321-350 | Clearing a connection pointer keeps the invariant, resets that pointer only, frees nothing twice and changes no owner; if there are too many connections and it was the only outside pointer to its object, every connection left is in use outside the pool, otherwise nothing is freed |
| ConnPool.LetGoCl | driver/mysql/sdb_cl.cc:519-550 | The same for a collection pointer |
| ConnPool.GetConn | driver/mysql/sdb_adaptor.cc:26-52 | The pointer then holds the connection listed for that thread and no other pointer moved; the invariant is kept and freed objects stay freed |
| ConnPool.GetCl | driver/mysql/sdb_conn.cc:146-199 | The pointer then holds the named collection of the connection it was asked of, or nothing, the latter only when opening fails; no other pointer moved and the invariant is kept |
| ConnPool.Assign | driver/mysql/sdb_conn.cc:352-360 | After assignment both pointers hold the same connection and no other pointer moved; what is left was there before under the same owner, eviction in between included |
| ConnPool.Opened | driver/mysql/ha_sdb.cc:200-244 | Opening keeps the invariant and moves only this handler's pointers wherever it fails; the handler then has the opening thread's connection, a failed connect leaves its collection alone, and when all succeeds it has the named collection over that connection |
| ConnPool.Closed | driver/mysql/ha_sdb.cc:246-256 | After close the handler holds neither a connection nor a collection, no other handler lost one, and the invariant holds; if one of the two was the last pointer to its object and there were too many connections, all that are left are in use or there are no longer too many; if neither was, nothing is freed |
| ConnPool.Switch | driver/mysql/ha_sdb.cc:1453-1474 | Switching keeps the invariant and moves only this handler's pointers wherever it fails, none of them if connecting fails; when it succeeds the handler has the named collection over the new thread's connection |
| ConnPool.AssignedServes | driver/mysql/ha_sdb.cc:1466-1474 | The evictions that the end of a switch may start do not take away what the handler holds |
| ConnPool.Checked | driver/mysql/ha_sdb.cc:1448-1480 | A thread check by the thread the collection belongs to changes nothing; after any that meets no error the collection in use belongs to the connection listed for the calling thread, whoever opened the handler |
| ConnPool.Deleted | driver/mysql/ha_sdb.cc:1709-1756 | After delete_table the handler's connection is the one it had; its collection is let go when the drop succeeds, is the named one when the drop fails, and is untouched when there was no connection; no other pointer moved |
| ConnPool.LookedUp | driver/mysql/ha_sdb.cc:1970-2054 | Commit and rollback look the connection up and let it go: no handler pointer moves and the invariant is kept |
| ConnPool.Step | driver/mysql/ha_sdb.cc:200-256 | Any of these operations keeps the invariant, never revives a freed object, moves only the pointers of its own handler and does what it is for: open and check give the collection of the thread, close and delete let it go |
| ConnPool.Run | driver/mysql/sdb_adaptor.cc:26-89 | Every run of operations keeps counts, pointers, the freed-once partition and the counter, and never revives a freed object |
| ConnPool.RunDoes | driver/mysql/ha_sdb.cc:200-256 | At every point of every run the next operation does what it is for |
| ConnPool.HeldCollectionIsAlive | driver/mysql/sdb_cl.cc:519-560 | At any point of any run a handler's collection and the connection its raw pointer names are live, listed and counted, and were not freed earlier |
| ConnPoolObject.SdbAdaptor.IsIdle | driver/mysql/sdb_conn.cc:263-277 | The loop answers whether no collection is referenced outside the list |
| ConnPoolObject.SdbAdaptor.ClearAllCl | driver/mysql/sdb_conn.cc:242-255 | All listed collections are freed once, under the lock, from count one |
| ConnPoolObject.SdbAdaptor.Sweep | driver/mysql/sdb_adaptor.cc:74-84 | Erasing while iterating removes exactly the connections evictable at the start |
| ConnPoolObject.SweepingIsIndependent | driver/mysql/sdb_adaptor.cc:74-84 | What was already erased does not change whether another connection may go |
| ConnPoolObject.SdbAdaptor.EraseConn | driver/mysql/sdb_adaptor.cc:83-83 | Erasing the last reference deletes the connection and its collections and nothing else |
| ConnPoolObject.SdbAdaptor.DelSdbConn | driver/mysql/sdb_adaptor.cc:54-89 | Above the limit, of the listed connections exactly those go that the map alone holds and whose collections their lists alone hold; they and their collections are freed, the others and theirs are untouched, none of that kind is left, no outside pointer moved, and the counter is the size of the map; the lock is free before and after |
| ConnPoolObject.SdbAdaptor.ClearConnPtr | driver/mysql/sdb_conn.cc:321-350 | On the object, after a pointer is cleared: if there are too many connections and it was the only outside pointer to its object, every connection left is in use outside the pool, otherwise nothing is freed; the last-reference branch is not taken |
| ConnPoolObject.SdbAdaptor.ClearClPtr | driver/mysql/sdb_cl.cc:519-550 | The same for collections, following a live connection pointer |
| ConnPoolObject.SdbAdaptor.GetSdbConn | driver/mysql/sdb_adaptor.cc:26-52 | On the object, the pointer ends up with the connection listed for the thread |
| ConnPoolObject.SdbAdaptor.GetClPtr | driver/mysql/sdb_conn.cc:146-199 | On the object, the pointer ends up with the named collection of the connection asked, or with nothing when opening fails |
| ConnPoolObject.SdbAdaptor.OpenTab | driver/mysql/ha_sdb.cc:200-244 | On the object, after a successful open the handler serves the opening thread, and no other handler was touched |
| ConnPoolObject.SdbAdaptor.CloseTab | driver/mysql/ha_sdb.cc:246-256 | On the object, after close neither pointer of the handler is set, no other handler was touched, and the pool is emptied of idle connections as `Closed` says |
| ConnPoolObject.SdbAdaptor.DeleteTab | driver/mysql/ha_sdb.cc:1709-1756 | On the object, after a successful drop the handler holds no collection, its connection is the one it had, and no other handler was touched |
| ConnPoolObject.SdbAdaptor.SwitchThread | driver/mysql/ha_sdb.cc:1453-1474 | On the object, after a successful switch the handler serves the new thread, and no other handler was touched |
| ConnPoolObject.SdbAdaptor.CheckThreadOf | driver/mysql/ha_sdb.cc:1448-1480 | On the object, after a thread check without error the handler's collection belongs to the calling thread's connection, and no other handler was touched |
| ConnPoolObject.SdbAdaptor.PerformAll | driver/mysql/ha_sdb.cc:200-256 | Over any run of operations the object goes through the states of the machine, and the invariant holds at the end |
| LibDeps.Search.GetLibdeps | site_scons/libdeps.py:64-74 | The cached answer, kept correct and in the order of caching; earlier answers never change, and a node whose search raises is not cached |
| LibDeps.Search.ComputeLibdeps | site_scons/libdeps.py:76-100 | The exploring flags are restored, a returned set is correct, and an exception retraces the calls from a node being explored |
| LibDeps.Search.ExploreChild | site_scons/libdeps.py:87-96 | One child with the handler around it: the set is correct for one more child, or the search of the node ends with an exception that retraces the calls, or with a correct set that stops at a child on a cycle clear of this node |
| LibDeps.HandlingIsRight | site_scons/libdeps.py:93-96 | Whichever way the handler goes: re-raised, the exception retraces the calls up to this node; swallowed, what was gathered is a correct set that stops at a child lying on a cycle this node is no part of |
| LibDeps.EntryIsDetermined | site_scons/libdeps.py:87-100 | The nodes cached before a node determine what is cached for it |
| LibDeps.NodeIsLost | site_scons/libdeps.py:93-100 | On a graph where a child lists itself, whatever was asked before, the answer for its parent ends at that child and misses the next one |
| LibDeps.SwallowedCycleLosesNode | site_scons/libdeps.py:64-100 | The search on that graph after any history of queries |
| LibDeps.Search.Query | site_scons/libdeps.py:64-100 | A node that reaches no cycle gets exactly the nodes reachable by one or more edges; any other gets a subset or a genuine cycle through it; a node on no cycle never raises; a node on a cycle from which every cycle leads back through it always raises |
| LibDeps.Search.Queries | site_scons/libdeps.py:64-100 | The same for every query of any history |
| LibDeps.LoneCycleIsNeverCached | site_scons/libdeps.py:87-100 | No node of a cycle is ever cached if none of its nodes lists a node on a cycle that avoids it, whatever was asked before |
| LibDeps.PairIsReported | site_scons/libdeps.py:54-100 | For two nodes that list each other the search of 0 raises with 0, 1, 0 after any history of queries |
| LibDeps.GenuineCycleReachesItself | site_scons/libdeps.py:54-62 | The nodes carried by an escaping exception are a cycle through the queried node |
| LibDeps.ReachIsReachVia | site_scons/libdeps.py:87-91 | Reachability is the union over the children of the child and what it reaches |
| Shrink.Planner.GetGroupIndex | conf/script/shrinkBusiness.js:146-167 | First fit returns the number of nodes of that group already planned |
| Shrink.Planner.PlanNode | conf/script/shrinkBusiness.js:230-240 | Stages and group lists of first fit over some nodes become those over one node more |
| Shrink.Planner.GeneratePlan | conf/script/shrinkBusiness.js:169-249 | Coord and catalog nodes one per stage in order, then the first-fit stages of the data nodes |
| Shrink.SplitByRole | conf/script/shrinkBusiness.js:198-228 | The loop over the configuration splits it by role, in order, leaving other roles out |
| Shrink.OnePerStage | conf/script/shrinkBusiness.js:146-167 | A group of n nodes has exactly one node in each of the first n stages and none in later ones |
| Shrink.FirstFitIsValid | conf/script/shrinkBusiness.js:230-244 | Every data node is in exactly one stage and no stage has two nodes of a group |
| Shrink.FirstFitIsOptimal | conf/script/shrinkBusiness.js:230-244 | No valid staging has fewer stages |
| Extend.TaskKeepsInv | conf/script/extendSequoiaDB.js:501-580 | Over any sequence of create, start and restore steps with any answers, tagged nodes are entries of the extension in their groups |
| Extend.TaskKeepsOldNodes | conf/script/extendSequoiaDB.js:501-694 | No step changes a node that was there before |
| Extend.NewNodesAreTagged | conf/script/extendSequoiaDB.js:536-580 | A new node carries the tag unless a restore step was carried out on it |
| Extend.RemoveOneIff | conf/script/extendSequoiaDB.js:351-449 | Removing a tagged node takes exactly that node, and an emptied data group, if and only if its entry names its own group |
| Extend.RollbackRemovesExactly | conf/script/extendSequoiaDB.js:451-499 | With one answer of the servers for each attempt, and while no entry strikes, rollback of any first entries removes exactly the tagged nodes for which an attempt under their own group was granted, and exactly the data groups it empties |
| Extend.RollbackIsRightIff | conf/script/extendSequoiaDB.js:351-499 | That holds whatever the servers answer, attempt by attempt, if and only if no entry names a tagged node under another data group that the entries before it can bring down to one node |
| Extend.OneGroupNeverStrikes | conf/script/extendSequoiaDB.js:351-499 | An extension that lists no node under two groups meets the condition |
| Extend.TwoGroupsDeleteOldNode | conf/script/extendSequoiaDB.js:369-430 | A node listed under two groups and created in the second, after which rollback removes an old node |
| Extend.SecondAttemptDeletesOldNode | conf/script/extendSequoiaDB.js:369-493 | The same node created in the first: its removal is refused and recorded as failed, and the second attempt removes an old node |
| Extend.StatusMeans | conf/script/extendSequoiaDB.js:470-493 | An entry that names its node's own group is recorded as failed if and only if the node was still there with its tag and could be read and the attempt was not granted, and the node is then still there after it; after an entry recorded as finished the tagged node is still there if and only if it could not be read; at the end it is there unless some attempt under its group was granted |
| Extend.OnlyEntryStatusMeans | conf/script/extendSequoiaDB.js:470-493 | For a node listed once the same holds at the end of the whole rollback |
| Extend.RollbackKeepsExactlyUntagged | conf/script/extendSequoiaDB.js:323-499 | After any steps, if no entry strikes, a rollback whose removals succeed keeps a node if and only if it carries no tag, and old nodes are unchanged |
| Extend.RollbackRestoresNodes | conf/script/extendSequoiaDB.js:451-663 | Without a successful restore step, if no entry strikes, the node set is the one before the extension |
| Extend.GroupIsRestoredIff | conf/script/extendSequoiaDB.js:351-499 | After any steps, if no entry strikes, a rollback whose removals succeed leaves a data group's existence as it was if and only if a group that existed has no node or keeps one, and one that did not was never made or has nodes that all go |
| Extend.GroupIsRestoredWithoutRestoreIff | conf/script/extendSequoiaDB.js:351-499 | Without a successful restore, if no entry strikes: if and only if an old group was not empty or got no node, and a new one, if made, got a node |
| Extend.EmptyGroupIsLeftBehind | conf/script/extendSequoiaDB.js:129-171 | A data group created for a node that is then refused is still there after rollback |
| Extend.EmptyOldGroupIsDeleted | conf/script/extendSequoiaDB.js:423-430 | A data group that existed without nodes is deleted with the one node the extension put into it |
| Extend.ClusterAdmin.InstallNode | conf/script/extendSequoiaDB.js:501-580 | When it succeeds the node carries the tag in its group and the group exists; when it fails no node was added; nodes already there are untouched |
| Extend.ClusterAdmin.RestoreNodeConfig | conf/script/extendSequoiaDB.js:638-694 | A carried-out restore leaves the node in its group without any tag and changes no other node and no group; one that is not carried out changes nothing |
| Extend.ClusterAdmin.CheckNode | conf/script/extendSequoiaDB.js:323-349 | A node is skipped exactly when it cannot be read or carries another tag |
| Extend.ClusterAdmin.RemoveOneNode | conf/script/extendSequoiaDB.js:351-449 | Whether it returns or throws: it throws if and only if the node is its to remove and the group cannot be looked up or what it asks of the servers is refused, and the last node of the coord or catalog group is not asked for; the cluster is unchanged if it throws or the node is not its to remove, and the coord and catalog groups never lose their last node |
| Extend.ClusterAdmin.RollbackAll | conf/script/extendSequoiaDB.js:451-499 | The loop reaches the rolled-back cluster, one attempt for each entry, and records the status of each |

## Left out

- Interleavings of threads inside one pool operation, and the mutual recursion of `connect` and `re_init`.
- The cap on evictions per sweep: the counter it is compared with is never incremented in the source, so it never stops the sweep.
- `ha_sdb::create`, `query_one` and `re_init` as clients of the pool and the session: they repeat the patterns above with one more step.
- BuildMatchObj: text and float key parts add no condition in the model, while the source appends the bytes of the key as a string or a floating-point number; the integer parts of such a key are modelled.
- AskedRowIsKeptIff: says nothing about text and float key parts, for the same reason, nor about rows with a NULL key column.
- EqualityIsKeptIff: the same.
- RangeIsSoundIff: the same.
- ItemVal: a decimal name that cannot be read as a number, and what a binary column gets for a placeholder that is NULL, are not modelled.
- Rounding, collation and date conversion of constants.
- The share table in ha_sdb.cc and `changeDirOwner` in func.js: they would only add easy members.
- `row_to_obj` and `obj_to_row`, SSH and agent calls, logging, and the extension's plan lists.
- The reelection loop when shrinking: it goes round as long as the server answers that the node is primary.
- Empty entries of a dependency list are dropped before the search, and one dependency variable is modelled at a time.

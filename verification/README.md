# postgres-sqlguard: a verified model

This project models the validation pipeline of postgres-sqlguard, from the grammar's output to a
guarded database call, and proves properties of it. `dafny verify dfyconfig.toml` checks everything.

The pipeline:

1. `conversion.dfy`, `tree.dfy`: the backend's protobuf tree becomes a parser-neutral tree.
   `roundtrip.dfy` has a decoder that knows only the schema and shows exactly what conversion loses.
2. `walk.dfy`, `statements.dfy`: the early-stopping walk with a stateful visitor, and the flattening of
   statements through CTE declarations. `correspondence.dfy` ties both back to the source tree.
3. `world.dfy`, `engine.dfy`: the engine, in an environment whose contexts, rules, sinks and database
   answer as arbitrary functions of the whole interaction so far. `runs.dfy`, `outcomes.dfy`,
   `verdicts.dfy` and `interleaving.dfy` prove what every run does. `registration.dfy` is construction.
4. `policies.dfy`: the six built-in rules, alone and composed with traversal and engine.
5. `cache.dfy`, `guard.dfy`: the plain and the cached database guard. `recency.dfy` is the replacement
   behaviour, `refinement.dfy` says exactly when the two guards can be told apart, `replacement.dfy` which
   texts the guard holds, `protocol.dfy` is any number of concurrent calls on one cache, `shared.dfy`
   what they do to it, `concurrent.dfy` the same with the engine as validator, and `endtoend.dfy` what
   finally reaches the database, what a call replies and when the grammar runs.
6. `snapshot.dfy`: the copying accessors on arrays of the heap.

Conventions:

- A Go string is a byte string, so one `char` stands for one byte; a nil node is `None`. Floats are
  kept as bit patterns, because nothing computes with them.
- An interaction is a step of a trace. `Began` marks the start of a guarded call; it has no counterpart
  in the code and lets contexts change between calls. The three guarded operations differ only in the
  executor method they name, so they share one body here.
- Rules are stateful in general (`Runs`, `Outcomes`, `Interleaving`, `Refinement`, `Protocol`). `Stateless`
  and `Active` are assumed only by the statements about the verdict itself.
- Protobuf reflection is a message with its descriptor's fields in order, each with its content if `Has`
  is true; a oneof has at most one populated case.
- Two guards are compared by replies and by evaluations, events and database calls; context checks and
  parses are hidden. `Paced` says that nobody counts those and that contexts which answered alike move
  alike on visible steps; what contexts do during a parse stays open.
- The LRU library is represented by a class with the contract the guard relies on
  (example/pgx-prepared/cache_test.go:200-217).

Where code and documentation differ, the code is followed, and a theorem says exactly when the two agree:

- README.md:24-25 says that every statement-bearing CTE is inspected; the code follows CTE declarations
  from a flattened statement's own WITH clause only. `EveryDeclarationIsInspectedIff` gives the condition
  on the tree under which that covers every declaration, and `OperandDeclarationsAreNotInspected` a tree
  where it does not.
- pkg/rules/mutation.go:27-33 asks for a WHERE clause; a clause that the tree stores as a nil node counts
  as one (statement.go:47-59), and likewise a nil column (pkg/rules/insert.go:29-42). pkg/rules/ddl.go:53-95
  rejects a missing discriminator, but an enum number unknown to the schema is not the table's
  (internal/parser/pgquery.go:126-132). `Safe` is what the code requires of a source statement, `Intended`
  what the documentation asks for. `SafeIsIntendedIff` and `AcceptedIsIntendedIff` say exactly when they
  agree, for one statement and for whole inputs, and two lemmas give inputs where they do not.

## Model

| member | source | states |
|---|---|---|
| `Tree.Children` | statement.go:62-82 | each node value of the first list of that name, stored nil nodes included, in the place its predecessors leave it, and nothing else |
| `Tree.Lookup` | internal/parser/node.go:59-71 | the value of the first field of that name, none iff no field has it |
| `Walk.WalkNode` | statement.go:172-201 | the recursive walk leaves the visitor, and answers, as the scan of the flat pre-order does, for any visitor with memory |
| `Walk.ScanIsShortestPrefix` | statement.go:172-201 | the visited nodes are the shortest prefix of the pre-order that ends with a refused node or just before a nil one; true exactly if the order was exhausted |
| `Walk.ShortestPrefixIsUnique` | statement.go:172-201 | only one prefix and one answer have that property |
| `Walk.AgreeingWalkIsComplete` | statement.go:172-201 | a visitor that always agrees sees the whole tree iff it stores no nil node value |
| `Walk.PreOrderIsNodeThenSubtrees` | statement.go:172-201 | the walked order is the node, then in field and list order the orders of the nodes stored in it, without entering lists in lists |
| `Statements.StatementSequence` | internal/parser/traversal.go:6-17 | the loop computes the declarative flattening; a nil result gives nothing |
| `Statements.AppendStatement` | internal/parser/traversal.go:21-56 | for every starting sequence, the accumulator appends the flattening of the statement, and nothing for a nil one |
| `Statements.AppendEntries` | internal/parser/traversal.go:44-53 | the loop over one CTE list appends what its entries contribute, in order, and skips entries that contribute nothing |
| `Statements.SequenceEnumeratesPaths` | internal/parser/traversal.go:6-56 | one occurrence for exactly every path of CTE indices that leads to a statement, in lexicographic order of the paths |
| `Statements.EnumerationIsUnique` | internal/parser/traversal.go:6-56 | any sequence that lists the paths so is the flattening |
| `Statements.FlattenIsWalked` | internal/parser/traversal.go:21-56 | the flattened statements are an ordered part of the pre-order, nil nodes or not |
| `Statements.WalkCoversFlatten` | internal/parser/traversal.go:21-56 | without nil node values, an agreeing walk visits every flattened statement in the flattened order |
| `Statements.EveryDeclarationIsInspectedIff` | README.md:24-25 | over a whole input, as many CTE statements are inspected as are declared anywhere iff WITH clauses that declare statements occur only as a statement's own and as those of the statements it declares; never more are inspected |
| `Statements.OperandDeclarationsAreNotInspected` | README.md:24-25 | a set operation whose operand has a WITH clause declares more CTE statements than are inspected |
| `Conversion.ConvertMessage` | internal/parser/pgquery.go:52-88 | a concrete message becomes a node of its kind with one field for each populated slot, in descriptor order; a wrapper is erased |
| `Conversion.ConvertValue` | internal/parser/pgquery.go:92-106 | the list loop converts element by element in order |
| `Conversion.ConvertSingularValue` | internal/parser/pgquery.go:110-138 | one value for each protobuf kind; an enum number gets the name of its first entry in the schema's table, and no symbol if it has no entry |
| `Conversion.Parse` | internal/parser/pgquery.go:15-37 | succeeds iff the text has no NUL byte and is grammatical, with the converted statements in order, without the empty ones |
| `RoundTrip.RoundTrip` | internal/parser/pgquery.go:52-138 | the schema-directed decoder rebuilds the source message up to unknown enum numbers and the form of an absent node |
| `RoundTrip.ConversionIsInjective` | internal/parser/pgquery.go:52-138 | two messages of one type convert alike iff they are equal up to just that |
| `Correspondence.OrderCommutes` | internal/parser/pgquery.go:52-138 | the walk order of the converted tree is, place by place, the source order, and a place is nil exactly where the source has an empty wrapper or message |
| `Correspondence.WalkedInFull` | statement.go:172-201 | a converted statement is walked in full iff nothing at or below it is empty |
| `Correspondence.FlattenCommutes` | internal/parser/traversal.go:21-56 | flattening the converted statement is converting the source statements reached through wrappers, in order |
| `Correspondence.BatchCommutes` | internal/parser/pgquery.go:28-36 | the same for a parsed batch whose empty wrappers are dropped |
| `Engine.Validator.Prepare` | engine.go:109-129 | the trace and result of preparation as one function of the environment and the past |
| `Engine.Validator.ValidatePrepared` | engine.go:135-163 | the nested loops with early exits run the statement-major, rule-minor product pair by pair |
| `Engine.Validator.Validate` | engine.go:96-103 | preparation, then validation of what it returned |
| `Engine.Validator.FinishValidation` | engine.go:167-183 | each enabled sink is told once, metrics first, whatever the first one does |
| `Runs.RulesRunIsExact` | engine.go:144-162 | the evaluated pairs are a prefix of the product, each right after its own passed check; the steps decide the result, and a failed check's own cause is the one returned |
| `Runs.ValidationIsExact` | engine.go:135-163 | a violation iff the last evaluation rejected (and with that rule's identifier), success iff the whole product was allowed, a context error iff a check failed and then with that check's cause, and an invalid prepared value is reported iff no check failed; exactly one matching event per enabled sink |
| `Runs.ValidationFollowsRegistration` | engine.go:144-162 | whatever contexts, rules and sinks answer, with n rules evaluation k is of flattened statement k / n by registered rule k % n; a violation carries the identifier under which the rule that rejected is registered, success means every rule allowed every statement |
| `Outcomes.PrepareIsAccounted` | engine.go:109-129 | the context is checked before the grammar and right after it, a failed check wins over a syntax failure, success emits nothing and failure one event |
| `Outcomes.EventsAreConserved` | engine.go:96-194 | over any calls each enabled sink gets, in order, one event for each returned verdict, whatever the sinks answer |
| `Outcomes.EventsNameRegisteredRules` | observability.go:50-56 | every event that a sink receives names a registered rule if it reports a violation and none otherwise; with non-empty identifiers it names one iff it reports a violation |
| `Verdicts.StatelessRun` | engine.go:144-162 | with stateless rules and an active context the result is the first rejected pair's violation, reached after exactly that many evaluations |
| `Verdicts.StatelessVerdict` | engine.go:144-162 | with stateless rules and an active context: success iff no rule rejects any statement, otherwise the identifier of the first rule in registration order that rejects the first rejected statement |
| `Verdicts.BatchHomomorphism` | engine.go:144-162 | a batch returns what its first top-level statement that is rejected alone returns, and succeeds if there is none |
| `Interleaving.ProjectionIsSolo` | engine.go:135-163 | one environment answers all calls from the common trace: if it shares nothing between them, then in any schedule what one call sees is its solo run for as many steps as it had turns |
| `Interleaving.SoloCompletes` | engine.go:135-163 | after a bounded number of steps a solo run has the trace and result of the engine's validation |
| `Interleaving.InterleavedValidationsDoNotInterfere` | engine.go:135-163 | with nothing shared, a call that gets enough turns ends with the trace and result of its own undisturbed validation |
| `Registration.ValidRuleID` | rule.go:43-62 | true iff 1 to 64 characters, the first a letter or digit, the others letters, digits, dots, hyphens or underscores |
| `Registration.ValidateRules` | engine.go:68-91 | the identifiers read iff the rules are acceptable; otherwise nil, invalid or duplicate, as is true of the first rule after acceptable ones |
| `Registration.CleanIffAcceptable` | engine.go:68-91 | no rule offends iff all are there, well formed and pairwise distinct |
| `Registration.NewEngine` | engine.go:40-64 | an engine iff both sinks and all rules are acceptable, with every rule in its place under its own identifier; otherwise the first failure in the documented order |
| `Policies.PermitsIffSafe` | pkg/rules/ddl.go:53-95 | each rule permits a converted statement iff the source statement is safe for it |
| `Policies.MessageChild` | pkg/rules/mutation.go:54-64 | the WHERE test holds iff the first populated field of that name is a message, even an empty one |
| `Policies.MessageList` | pkg/rules/insert.go:29-42 | the column test holds iff the stored list has a message |
| `Policies.EnumChild` | pkg/rules/ddl.go:65-95 | the object-type test holds iff an enum other than the table's is stored; a missing one fails closed |
| `Policies.PreparedAcceptedIffSafe` | engine.go:135-163 | a parsed input is accepted iff every source statement reached in it is safe for every registered rule |
| `Policies.SqlAcceptedIffSafe` | engine.go:96-163 | from text to verdict: accepted iff grammatical and every source statement reached is safe for every registered rule |
| `Policies.RuleOrderIsImmaterial` | engine.go:147-159 | permuting the rules changes neither success nor the statement at which validation stops |
| `Policies.MoreRulesRejectMore` | engine.go:147-159 | with more rules a rejection stays one and comes no later |
| `Policies.SafeIsIntendedIff` | pkg/rules/mutation.go:27-64 | for every rule, the coded policy and the documented one agree on a statement iff the slot the rule reads holds neither an empty wrapper (only such, for columns) nor an enum number outside its table; the documented policy is the coded one and that condition |
| `Policies.PermitsIntendedIff` | pkg/rules/mutation.go:27-64 | a rule permits a converted statement as documented iff its slot is meaningful in that sense, and what the documentation asks for is always permitted |
| `Policies.EmptyClauseIsPermitted` | statement.go:47-59 | an UPDATE whose WHERE slot holds an empty wrapper, which the documented policy rejects, is permitted |
| `Policies.UnknownObjectTypeIsPermitted` | internal/parser/pgquery.go:126-132 | a DROP whose object type is a number outside its table, which the documented policy rejects, is permitted |
| `Policies.AcceptedIsIntendedIff` | engine.go:96-163 | text that meets the documented policies is always accepted, and accepted text meets them iff the slots its rules read are meaningful in every reached statement |
| `Policies.BuiltInIdentifiers` | pkg/rules/ddl.go:9-20 | the identifiers of the six built-in rules |
| `Cache.Lru.Get` | example/pgx-prepared/guarded.go:141 | a hit returns the stored value and moves its entry to the front, the others keeping their order; a miss changes nothing |
| `Cache.Lru.Add` | example/pgx-prepared/guarded.go:152 | the entry goes to the front and replaces one of its key, wherever that is; the others keep their values and order; without one, the back leaves if the list was full |
| `Recency.NoBeladyAnomaly` | example/pgx-prepared/guarded.go:140-156 | with the same calls and outcomes the smaller cache's list stays an ordered part of the larger one's, so its hits are hits there |
| `Recency.ReuseDistance` | example/pgx-prepared/guarded.go:140-166 | a key just used is still cached iff fewer than capacity distinct others were hit or inserted since |
| `Recency.WorkingSetIsKept` | example/pgx-prepared/guarded.go:140-166 | with at most capacity eligible keys a cached key stays |
| `Guard.ContainsQueryRewriter` | example/pgx-prepared/guarded.go:176-184 | true iff some argument rewrites the query |
| `Guard.PlainDB.Guarded` | example/pgx/guarded.go:56-96 | the rewriter test, validation and delegation, on the real trace |
| `Guard.CachedDB.Validate` | example/pgx-prepared/guarded.go:140-156 | the trace, the cache and the result of validating through the cache |
| `Guard.CachedDB.Guarded` | example/pgx-prepared/guarded.go:96-138 | the same through the cache, with the cache left behind |
| `Guard.NewCachedDB` | example/pgx-prepared/guarded.go:60-92 | an empty valid guard, or the first failure in order |
| `Refinement.HitAlikeIff` | example/pgx-prepared/guarded.go:141-143 | validating a remembered parse looks like preparing and validating its text iff the context does not expire in that preparation's parse |
| `Refinement.CheckAlikeIff` | example/pgx-prepared/guarded.go:140-156 | hit or miss, the result and the observable steps are those of plain validation iff the context gives both the same answer once the parse is at hand; every entry stays what preparing its key gives |
| `Refinement.GuardsAlikeIff` | example/pgx-prepared/guarded.go:94-156 | over any sequence of calls both guards give the same replies and the same evaluations, events and database calls in order iff in every call its context gives both the same answer once the parse is at hand |
| `Refinement.GuardsAlikeIffNoHitExpires` | example/pgx-prepared/guarded.go:94-156 | if a parse ends at most its own call's context, that is so iff in the plain guard's run no call whose text a cache would hold expires in its parse |
| `Refinement.CachedGuardRefinesPlain` | example/pgx-prepared/guarded.go:94-156 | if contexts change only while rules, sinks or the database run or between calls, both guards give the same replies and the same evaluations, events and database calls in order over any sequence of calls |
| `Refinement.ExpiryInParseIsVisible` | example/pgx-prepared/guarded.go:140-156 | from an empty cache, two calls with one text: the first has it cached, the second's context expires for good in its own parse; the plain guard denies the second call and the cached one executes it |
| `Replacement.CallsServe` | example/pgx-prepared/guarded.go:150-166 | the cache's keys evolve as the replacement rule says, with a miss inserted iff the text is short enough and the reply is a success or a violation |
| `Protocol.StepKeepsInv` | example/pgx-prepared/guarded.go:96-156 | every atomic step of every call keeps the protocol's invariant |
| `Protocol.EveryInterleavingIsSafe` | example/pgx-prepared/guarded.go:96-156 | in every reachable state each database call follows its own call's single accepting validation of a value prepared from exactly that text, the cache is within its limits, and each entry was prepared from its key and first judged accepted or violating |
| `Protocol.AloneIsSequential` | example/pgx-prepared/guarded.go:140-156 | a call that nobody interrupts changes the shared cache as the sequential guard does and reaches the database iff it does |
| `SharedCache.StepOnCache` | example/pgx-prepared/guarded.go:140-156 | in any state of the shared cache: a lookup that hits moves its entry to the front, an admitted store puts the call's text and value first, whoever may have inserted the text meanwhile, and every other step leaves the cache alone |
| `SharedCache.StepIsOwn` | example/pgx-prepared/guarded.go:140-156 | a step changes no other call and adds at most one event, its own |
| `SharedCache.KeysFollowLabels` | example/pgx-prepared/guarded.go:140-156 | after any interleaving the cached keys are what the replacement rule gives for the lookups and admitted stores in their order |
| `SharedCache.CallsKeepTheirText` | example/pgx-prepared/guarded.go:96-156 | in any interleaving a call prepares, validates and forwards only the text it began with |
| `Concurrent.EveryInterleavingForwardsSafeSql` | example/pgx-prepared/guarded.go:96-156 | with the engine as validator and built-in rules, every text that reaches the database in any interleaving is safe for every registered rule, whenever contexts expire |
| `Concurrent.FinishedCallsForwardIffSafe` | example/pgx-prepared/guarded.go:96-156 | in any interleaving under contexts that stay live, a finished call has reached the database with its text iff that text is safe for every registered rule |
| `Concurrent.EveryEntryIsAParse` | example/pgx-prepared/guarded.go:150-153 | in any interleaving every entry of the shared cache is the parse of its key, whenever contexts expire |
| `EndToEnd.CachedRunSteps` | example/pgx-prepared/guarded.go:140-156 | validation never reaches the database, and runs the grammar only on a miss |
| `EndToEnd.CallForwards` | example/pgx-prepared/guarded.go:96-138 | at most one database call, last, with the call's own text and arguments, iff no argument rewrites and validation succeeded; a call is refused iff an argument rewrites, and denied with exactly the error of its own validation; the grammar runs iff no argument rewrites, the text is not cached and the context is live |
| `EndToEnd.PlainCallForwards` | example/pgx/guarded.go:56-96 | the plain guard: the same, with the error of plain validation |
| `EndToEnd.ExpiredCallIsDenied` | example/pgx-prepared/guarded.go:96-156 | a context that has expired when the call begins denies it with its own cause, in both guards |
| `EndToEnd.PlainReplyIsDecided` | example/pgx/guarded.go:56-96 | with stateless rules and an active context: a rewriting argument refuses the call, ungrammatical text is denied as a parser failure, and otherwise the call is answered by the database iff every rule allows every statement, and else denied with the identifier of the first rule that rejects the first rejected statement |
| `EndToEnd.CachedReplyIsDecided` | example/pgx-prepared/guarded.go:96-156 | the same for the cached guard, hit or miss |
| `EndToEnd.UnsafeTextIsDenied` | example/pgx-prepared/guarded.go:96-156 | with built-in rules both guards deny unsafe text with the identifier of the first rule for which the first unsafe source statement is unsafe |
| `EndToEnd.DropTableIsDenied` | pkg/rules/ddl.go:65-76 | a DROP whose object type is the schema's entry 42, OBJECT_TABLE, is denied as deny_drop_table |
| `EndToEnd.ForwardedIffSafe` | example/pgx-prepared/guarded.go:96-156 | with built-in rules a call reaches the database iff its text is safe and no argument rewrites it, cached or not |
| `EndToEnd.DatabaseReceivesExactlySafeRequests` | example/pgx-prepared/guarded.go:96-156 | with built-in rules the database receives exactly the safe requests, in order, whatever is cached or evicted |
| `EndToEnd.LargerCacheNeverParsesMore` | example/pgx-prepared/guarded.go:140-156 | two guards that differ in capacity only, after the same calls: when the next call runs the grammar through the larger cache, it does through the smaller |
| `EndToEnd.NextCallParsesIff` | example/pgx-prepared/guarded.go:140-166 | after a text was hit or inserted and calls with other texts, the next call with it runs the grammar iff those calls used at least capacity distinct keys and its context is live |
| `EndToEnd.WorkingSetIsParsedOnce` | example/pgx-prepared/guarded.go:140-166 | with at most capacity short texts, no later call with a cached text runs the grammar |
| `EndToEnd.BuiltInsAreAcceptable` | pkg/rules/ddl.go:9-20 | a choice of built-in rules can be registered iff none is repeated |
| `Snapshot.StoredNode.Fields` | internal/parser/node.go:75-81 | a new array with the stored fields |
| `Snapshot.BytesOf` | internal/parser/node.go:129-135 | a new array with the stored bytes, for a bytes value only |
| `Snapshot.ListOf` | internal/parser/node.go:149-155 | a new array with the stored values, for a list value only |
| `Snapshot.StoredResult.Statements` | internal/parser/parser.go:10-16 | a new array with the stored statements |
| `Snapshot.ReadBack` | internal/parser/node.go:75-155 | reading a stored tree through the copying accessors gives exactly the value stored |
| `Snapshot.Store` | internal/parser/pgquery.go:92-138 | any value can be stored in arrays that nobody else holds |
| `Snapshot.Callers.Perform` | internal/parser/node.go:75-155 | a request hands out one new array with the stored content, a write changes one place of one array that was handed out, and nothing else changes |
| `Snapshot.Callers.PerformAll` | internal/parser/node.go:75-155 | accessor calls and writes of any handed-out array change nothing but handed-out arrays, and hand out only new ones |
| `Snapshot.ReadsAreIsolated` | internal/parser/node.go:75-155 | no accessor calls and caller writes, in any order, change what a later read of the stored statements finds |
| `Snapshot.ParseIsIsolated` | internal/parser/parser.go:10-16 | the same from a fresh parse: after any accessor calls and writes on it, reading gives the parse |
| `Snapshot.SharingWouldLeak` | internal/parser/node.go:129-135 | with a byte array from anywhere in the stored statements handed out instead of a copy, every change a caller makes there changes the statements |

## Left out

- The PostgreSQL grammar and both parser backends: foreign code; an arbitrary deterministic function here.
- Protobuf reflection and golang-lru themselves: only the contracts stated above.
- pgx and the database: the executor is a logged call with an arbitrary answer.
- Panics raised by rules: a rule always answers. Errors and panics of sinks are modelled.
- Go's typed-nil reflection, `strings.Clone` and the Go memory model: nil is an option, and concurrency is atomic steps.
- The remaining scalar accessors of `Node` (statement.go:85-149): each only reads one field.
- The mode of a validation event (observability.go:9-11), a constant.
- Error texts, redaction, the Prometheus and slog adapters, benchmarks and test helpers.
- Protocol.EveryInterleavingIsSafe: the validator is arbitrary there, so it does not say that a value equals the parse of its key; `Concurrent.EveryInterleavingForwardsSafeSql` adds the engine.
- Concurrent.EveryInterleavingForwardsSafeSql: a parse and a validation are single steps there; `Interleaving` has their inner steps.
- Concurrent.FinishedCallsForwardIffSafe: contexts stay live there; with contexts that expire only the direction of `Concurrent.EveryInterleavingForwardsSafeSql` holds.
- Refinement.GuardsAlikeIff: does not cover rules, sinks or a database that count context checks or parses, nor contexts that answered alike and then move differently on the same visible step.
- Snapshot.ReadsAreIsolated: callers hold any arrays the accessors handed out; the slices that `Children` and `StatementSequence` build are represented by arrays of arbitrary nodes.
- Recency.NoBeladyAnomaly: assumes the same outcomes for both caches; `Refinement.CachedGuardRefinesPlain` shows that the guards have them, and `EndToEnd.LargerCacheNeverParsesMore` uses it.

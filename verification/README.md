# Verified model of the Panackelty native VM

This project models the logic of the native bytecode VM in `src/vm/` and proves what it
promises over whole runs. Verify with `dafny verify dfyconfig.toml` (Dafny 4.11).

| part | files | source |
|---|---|---|
| Task session: structured concurrency | `TaskModel`, `TaskProofs`, `TaskRuns`, `TaskStrike`, `TaskExpiry`, `TaskEffects`, `TaskTheorems`, `TaskOrigins`, `TaskSession` | `src/vm/tasks.c` |
| Reference-counted values and shared append storage | `HeapModel`, `HeapProofs`, `HeapAppend`, `HeapTheorems`, `HeapSharing`, `ValueHeap` | `src/vm/value.c` |
| Exact arithmetic | `Limbs`, `BigInt`, `BigDivide`, `BigText`, `NumberTheory`, `Rational`, `Comparison`, `DecimalMath`, `DecimalArith`, `DecimalOrder` | `src/vm/bigint.c`, `src/vm/numeric.c` |
| Effect check, interpreter, coverage | `Bytecode`, `Effects`, `Interpreter`, `InterpreterProofs`, `InterpreterLaws`, `CoverageProofs`, `CoverageCounts`, `CoverageCounters`, `Execution` | `src/vm/verify.c`, `src/vm/execute.c`, `src/vm/coverage.c`, `src/vm/program.c` |
| Detached operations | `Handover` | `src/vm/root_read.c`, `src/vm/console_write.c` |
| TCP server | `ServerModel`, `ServerProofs`, `ServerClients`, `TcpServer` | `src/vm/tcp_server.c` |
| UTF-8 text | `Utf8`, `Text` | `src/vm/utf8.c`, `src/vm/value.c`, `src/vm/builtins_text.c` |

Code that updates state in place is a class whose methods are proved equal to functions on
values (`VMTasks`, `Values`, `Big`, `Program`, `Counters`, `Execution`, `VMTcpServer`); the theorems
over whole runs are lemmas about those functions. The detached operations are a step system: each
mutex section, compare-and-swap, release of a record and counter update is one step, and the steps
of any number of operations interleave.

What the VM cannot decide itself is an input that the theorems quantify over: what a task body,
a builtin, an iterator or a handler does, when it waits, what clocks and sockets return, whether
`accept`, `malloc` for an operation or thread creation succeeds, and whether a weak
compare-and-swap fails for no reason.

Choices and differences worth knowing:

- Decimal exponents are mathematical integers; in the source they are C `int`.
- 32-bit and 64-bit intermediates of the limb arithmetic are bounded types, so every step is
  shown not to overflow; `pn_big_mul_small` is used with factors up to 10^9, as its callers do.
- In `release` the model takes the dead value out before it releases the children; the source frees
  it afterwards. Nothing can see the difference, because nothing refers to a dead value.
- The heap records, besides the real state, which references outside code holds and what each
  value denoted when it was made; no operation reads that. The same holds for the delivered
  operations and dispatches of a task session and for the accepted connections and departures of the
  server.
- The effect discipline is proved for every program, verified or not, because the interpreter makes
  the check of `verify_call_edge` again at every call. Verification adds that direct calls never
  fail that check and that jumps stay inside the function.
- The coverage equations hold as long as no counter has reached its ceiling; what a cell counts is
  stated up to the ceiling, and overflow is reported only when some counter has reached it.
- The coverage buffer is flat, as in the source; the proofs about counters see one row of cells for
  each function, and `CoverageCounters` proves that the two agree.
- A failing body takes its whole tree: the failure rises to the root through `settle`, and every
  scope on the way cancels its other children. `TaskStrike` proves that nothing else is touched.
- The server counts an empty response as a success only if it reaches `write_client` before the
  deadline of its client; `ServerProofs.EmptyResponseLost` shows the case, `ResponseDecides` the rule.
- Equality of numbers is not transitive across kinds. `Comparison` gives the triple that shows it
  and the exact condition under which a chain of equalities closes.

## Model

| member | source | states |
|---|---|---|
| `TaskProofs.SettleWorks` | src/vm/tasks.c:217-244 | One reverse traversal over the task table is enough: afterwards every failure has reached all its ancestors, no joining scope has only terminal children, and each task is unchanged or moved one way towards a terminal state |
| `TaskProofs.CancelKeepsClosed` | src/vm/tasks.c:194-215 | Cancelling a subtree, with or without its root, leaves no live task under a terminal one and no unfinished task under a completed one |
| `TaskProofs.JoinSettles` | src/vm/tasks.c:221-233 | A joining task turns terminal, with its outcome, exactly when it has no live child; otherwise nothing changes, and no other task changes |
| `TaskProofs.PropagateKeeps` | src/vm/tasks.c:234-242 | Reporting a failed child to its parent, and cancelling the siblings, keeps every already settled task settled |
| `TaskRuns.EndBodyWorks` | src/vm/tasks.c:169-192 | However the body of a live task ends, the session invariant holds again after settling, no terminal task has changed and no task comes back to life |
| `TaskRuns.DeliverWorks` | src/vm/tasks.c:282-308 | Delivery empties the ring and keeps the session invariant; no terminal task changes and no task comes back to life |
| `TaskRuns.PrepareWorks` | src/vm/tasks.c:310-324 | After completions, expiry and settling no live task has a deadline at or before the current time |
| `TaskRuns.ScanWorks` | src/vm/tasks.c:326-334 | The cursor scan finds the first ready task from the cursor, or proves that none of the scanned slots is ready |
| `TaskRuns.RegisterWorks` | src/vm/tasks.c:67-79 | A ready task that registers a request leaves the session in order: the request is counted once, no terminal task changes and no task comes back to life |
| `TaskTheorems.PumpWorks` | src/vm/tasks.c:310-355 | A pump is refused exactly when time goes backwards or another runs, and then changes nothing. An accepted one sets the clock, leaves no live task at or past its deadline, and dispatches a chain: each dispatch finds the table the one before it left, takes what the body answers to exactly the effect of Took, and there are as many as the budget allows unless no task is ready any more |
| `TaskTheorems.SpawnWorks` | src/vm/tasks.c:121-157 | Admitted exactly outside a pump, with a free slot, an execution and an unfinished parent or none; the returned id then looks up one new ready task with that parent and kind and the earlier of the two deadlines, and every other task is as before; a refusal changes nothing; the invariant holds |
| `TaskTheorems.CancelWorks` | src/vm/tasks.c:246-255 | Accepted exactly for a task of this session outside a pump; a refused call and one for a finished task change nothing; any other cancels the task and every live task below it, traps its live ancestors, cancels the rest of its tree and leaves all other trees alone; the invariant holds |
| `TaskTheorems.CompleteWorks` | src/vm/tasks.c:268-280 | Accepted exactly for the request its task waits on, of its kind, not queued yet, outside a pump and with room in the ring; the event goes to the end of the ring and only that task is marked; a refusal changes nothing; the invariant holds |
| `TaskTheorems.CreateWorks` | src/vm/tasks.c:81-119 | Created exactly for positive limits and a free identity; the session is empty, has those limits and the next identity, and satisfies the invariant |
| `TaskTheorems.PrepareTakes` | src/vm/tasks.c:310-324 | Between completions and dispatches, expiry takes exactly the trees with an expired task (see ExpiryTakes) |
| `TaskTheorems.DispatchLoopWorks` | src/vm/tasks.c:325-352 | The dispatch loop is such a chain of dispatches, and stops short of its budget only when no task is ready |
| `TaskStrike.FailureStrikes` | src/vm/tasks.c:344-351 | A body that traps or exits: it ends with that status, its live ancestors trap, every other live task of its tree is cancelled, all without result and request; finished tasks and other trees are untouched |
| `TaskStrike.CancelStrikes` | src/vm/tasks.c:246-255 | Cancelling a live task strikes its tree in the same way, with the task itself cancelled |
| `TaskStrike.CancelFinished` | src/vm/tasks.c:246-255 | Cancelling a finished task changes nothing at all |
| `TaskStrike.CompletionRises` | src/vm/tasks.c:343-351 | A body that completes keeps its value; besides it, only joining ancestors whose last live child has finished move, and they complete; nothing else changes |
| `TaskEffects.AdvanceTakes` | src/vm/tasks.c:339-351 | What one dispatch does to the whole table for each answer of the body: nothing, a new request, a trap if there is none to be had, a completion that rises or a failure that strikes |
| `TaskEffects.DispatchedSlot` | src/vm/tasks.c:339-351 | The dispatched task afterwards: completed with its value, finished exactly when it has no live child and joining otherwise; trapped or exited at once with all live descendants cancelled; waiting with the next generation; or as before |
| `TaskEffects.CancelledTree` | src/vm/tasks.c:246-255 | For an accepted cancellation: live tasks whose parent chain meets the task are cancelled with no result and no request, live ancestors trap, and a task whose chain meets neither the task nor an ancestor of it is unchanged |
| `TaskEffects.DeliverTakes` | src/vm/tasks.c:282-308 | A stale completion does nothing; a live one makes exactly its task ready when the payload does not trap and strikes its tree when it does; exactly the live ones are recorded as delivered |
| `TaskEffects.ScanSawAll` | src/vm/tasks.c:327-337 | A scan over all slots that finds nothing means that no task is ready |
| `TaskExpiry.ExpireLapses` | src/vm/tasks.c:318-323 | The loop over expired tasks cancels exactly the live tasks that have expired or are below one that has |
| `TaskExpiry.SettleLocal` | src/vm/tasks.c:217-244 | Settling leaves every tree alone that was settled before |
| `TaskExpiry.NobodyCompletes` | src/vm/tasks.c:217-244 | Settling never turns a live task into a completed one |
| `TaskExpiry.ExpiryTakes` | src/vm/tasks.c:318-324 | Expiry with settling: finished tasks and trees without an expired task are untouched; in any other tree every live task ends without result or request and none completes, and the expired ones and all below them are cancelled |
| `TaskOrigins.TookFruit` | src/vm/tasks.c:343-346 | A dispatch gives its own slot the outcome its body answered and nobody else a new completion or exit |
| `TaskOrigins.ResultsEarned` | src/vm/tasks.c:343-346 | Over every run from a new session: a task is completed with a value only if one of its own dispatches answered that value, and exited only if one of them exited |
| `TaskTheorems.ApplyWorks` | src/vm/tasks.c:121-355 | Every public call on every state keeps the session invariant and no terminal task ever changes |
| `TaskTheorems.StructuredScopes` | src/vm/tasks.c:169-255 | After every call: terminal tasks have only terminal descendants, completed ones only completed descendants, and no descendant has a later deadline than its ancestor |
| `TaskTheorems.LiveScopes` | src/vm/tasks.c:217-244 | After every call: a live task has no failed or cancelled child, and a joining task has a live child |
| `TaskTheorems.FinalOutcomes` | src/vm/tasks.c:310-355 | Over any sequence of calls a terminal task keeps status, outcome and result |
| `TaskTheorems.RequestsConserved` | src/vm/tasks.c:56-79 | Registered minus released requests is the number of waiting tasks, and destroying the session releases the rest |
| `TaskTheorems.QueuedExactlyOnce` | src/vm/tasks.c:268-308 | A queued pending request has exactly one event in the ring, an unqueued one none, and no two events carry the same operation |
| `TaskTheorems.RefusedCompletions` | src/vm/tasks.c:268-280 | Delivered, queued, outdated, foreign and wrong-kind completions are refused and change nothing |
| `TaskTheorems.DeliveredOnce` | src/vm/tasks.c:282-308 | Over a whole run no operation is delivered twice |
| `TaskTheorems.RoundRobin` | src/vm/tasks.c:325-352 | Among n consecutive dispatches of a session with n tasks every task that stayed ready was dispatched |
| `TaskSession.VMTasks.constructor` | src/vm/tasks.c:81-119 | The fresh session object is the created session of the model |
| `TaskSession.VMTasks.Spawn` | src/vm/tasks.c:121-157 | The object after a spawn is the modelled session, for every parent, deadline and admission outcome |
| `TaskSession.VMTasks.ReleaseRequest` | src/vm/tasks.c:56-65 | A pending request is released and counted once, otherwise nothing changes |
| `TaskSession.VMTasks.FinishBody` | src/vm/tasks.c:169-192 | The task takes the outcome and the joining state as modelled, and gives up its request |
| `TaskSession.VMTasks.IsDescendant` | src/vm/tasks.c:159-166 | Walking the parent chain decides the descendant relation |
| `TaskSession.VMTasks.Cancel` | src/vm/tasks.c:194-215 | The cancelling loop cancels exactly the live descendants, and the root when asked |
| `TaskSession.VMTasks.AllChildrenTerminal` | src/vm/tasks.c:224-229 | The child loop decides whether a scope is joined |
| `TaskSession.VMTasks.Settle` | src/vm/tasks.c:217-244 | The in-place reverse loop computes the settled table of the model |
| `TaskSession.VMTasks.Complete` | src/vm/tasks.c:268-280 | Writing behind the newest ring entry appends the event to the queue, or refuses and changes nothing |
| `TaskSession.VMTasks.TakeEvent` | src/vm/tasks.c:284-287 | Taking from the ring buffer returns the oldest event and removes it |
| `TaskSession.VMTasks.DeliverCompletions` | src/vm/tasks.c:282-308 | The ring loop performs the modelled delivery of every queued completion in order |
| `TaskSession.VMTasks.ExpireTasks` | src/vm/tasks.c:318-323 | The deadline loop cancels exactly the expired subtrees |
| `TaskSession.VMTasks.ScanReady` | src/vm/tasks.c:326-334 | The wrapping cursor loop computes the modelled scan and cursor |
| `TaskSession.VMTasks.DispatchReady` | src/vm/tasks.c:325-352 | The dispatch loop performs the modelled dispatches; on a session in order they are a chain as in PumpWorks, each with the effect of its answer, and stop short of the budget only when no task is ready |
| `TaskSession.VMTasks.Pump` | src/vm/tasks.c:310-355 | The in-place pump is the modelled pump; on a session in order it is refused exactly when time goes backwards, leaves no live task past its deadline and dispatches the chain of PumpWorks |
| `TaskSession.VMTasks.CancelTask` | src/vm/tasks.c:246-255 | The in-place cancellation is the modelled call; on a settled table it is accepted exactly for a task of this session outside a pump and strikes exactly its tree |
| `HeapProofs.RetainWorks` | src/vm/value.c:30-36 | Retaining a live value keeps counts exact, ownership acyclic and every version unchanged |
| `HeapProofs.OtherViewShows` | src/vm/value.c:75-97 | Of two views of one storage one shows all items and the other all but the last |
| `HeapProofs.UnlinkWorks` | src/vm/value.c:38-116 | Taking out a dead value of any shape, including either view of a shared storage, keeps every invariant and hands over exactly what it owned |
| `HeapProofs.ReleaseWorks` | src/vm/value.c:38-116 | Releasing a reference, with the whole cascade it causes, keeps the heap sound, gives up that reference only and changes what no surviving value denotes |
| `HeapProofs.ReleaseAllWorks` | src/vm/value.c:38-116 | The same for a list of references |
| `HeapAppend.IndependentSound` | src/vm/value.c:208-249 | When the bounded walk allows sharing, no ownership path of any length leads from the item to the storage |
| `HeapAppend.ExtendAcyclic` | src/vm/value.c:264-269 | Adding an item from which the storage is unreachable closes no ownership cycle |
| `HeapAppend.AppendSharedWorks` | src/vm/value.c:262-269 | The append that mutates shared storage keeps every invariant, and the new version denotes the old elements and the item |
| `HeapAppend.AppendCopiedWorks` | src/vm/value.c:270-294 | The copying append has the same effect with fresh storage |
| `HeapAppend.AppendWorks` | src/vm/value.c:251-295 | Whichever way is taken, append denotes old ++ [item] and every earlier version denotes what it did |
| `HeapAppend.NewValueWorks` | src/vm/value.c:186-202 | A new composite value retains its children once per slot and denotes them |
| `HeapSharing.SharingInvisible` | src/vm/value.c:251-295 | The same calls run with the sharing append and with an always-copying one are allowed alike, and after each of them outside code holds the same references and sees the same kinds and elements |
| `HeapSharing.SameCreated` | src/vm/value.c:38-116 | Which values are alive follows from what is held and what was made, so releases free the same values in both runs |
| `HeapTheorems.FullView` | src/vm/value.c:11-18 | Every storage has a view that shows all of its items |
| `HeapTheorems.StorageViews` | src/vm/value.c:75-97 | A storage has exactly one view at its full count, or exactly two at the full count and one less |
| `HeapTheorems.ExactlyAccessibleIsLive` | src/vm/value.c:38-116 | The live values are exactly those that outside code can still get to: hidden suffixes of shared storage keep nothing alive |
| `HeapTheorems.ApplyWorks` | src/vm/value.c:30-295 | Every allowed call keeps the heap invariant and no surviving version changes |
| `HeapTheorems.EveryRun` | src/vm/value.c:30-295 | In every heap reached by makes, retains, releases and appends the counts are exact, ownership is acyclic, versions are immutable and exactly the accessible values live |
| `ValueHeap.Values.Release` | src/vm/value.c:38-116 | The recursive in-place release is the modelled one, and ends |
| `ValueHeap.Values.Independent` | src/vm/value.c:208-249 | The budgeted walk is the modelled one, and uses at most its budget |
| `ValueHeap.Values.Append` | src/vm/value.c:251-295 | The in-place append is the modelled one, with its refusal at the size limit |
| `BigInt.Big.Normalize` | src/vm/bigint.c:9-17 | Leading zero limbs are dropped and the value is kept |
| `BigInt.LimbsOf` | src/vm/bigint.c:62-81 | The limbs denote the machine number and are normalized |
| `BigInt.Big.MulSmall` | src/vm/bigint.c:83-107 | The magnitude is multiplied, limbs stay below the base for factors up to 10^9, and no 64-bit step overflows |
| `BigInt.Big.AddSmall` | src/vm/bigint.c:109-133 | The addend is added to the magnitude |
| `BigInt.Big.DivSmall` | src/vm/bigint.c:312-322 | Quotient in place and remainder of the magnitude |
| `BigInt.Big.ShiftBaseAdd` | src/vm/bigint.c:324-337 | The magnitude becomes BASE times itself plus the limb |
| `BigInt.Big.Pow10` | src/vm/bigint.c:417-425 | The value is multiplied by that power of ten |
| `BigInt.AbsCompare` | src/vm/bigint.c:188-199 | Comparing limbs from the top orders the magnitudes |
| `BigInt.Compare` | src/vm/bigint.c:201-208 | The sign of the comparison of the two integers |
| `BigInt.AbsAdd` | src/vm/bigint.c:210-226 | Normalized sum of magnitudes, no overflow |
| `BigInt.AbsSub` | src/vm/bigint.c:228-247 | Normalized difference of magnitudes, no underflow when the first is at least the second |
| `BigInt.Add` | src/vm/bigint.c:249-275 | Integer addition on normalized operands, with a normalized result |
| `BigInt.Sub` | src/vm/bigint.c:277-282 | Integer subtraction likewise |
| `BigInt.RowBound` | src/vm/bigint.c:295-299 | Limb times limb plus limb plus carry fits 64 bits and leaves a carry below the base |
| `BigInt.MulRow` | src/vm/bigint.c:293-305 | One row adds x times y at its place, never overflowing 64 bits |
| `BigInt.Mul` | src/vm/bigint.c:284-310 | Integer multiplication, normalized |
| `BigDivide.FindDigit` | src/vm/bigint.c:366-388 | The binary search returns the greatest digit whose multiple of the divisor stays within the remainder |
| `BigDivide.DivideLimbs` | src/vm/bigint.c:362-402 | Long division of magnitudes: quotient and a remainder smaller than the divisor |
| `BigDivide.DivMod` | src/vm/bigint.c:339-415 | Fails exactly for a zero divisor; otherwise a = q*b + r with |r| < |b| and r zero or of the sign of a, all normalized |
| `BigDivide.SignsOfDivision` | src/vm/bigint.c:403-405 | The signs given to quotient and remainder make truncated division in all four sign cases |
| `BigText.ReadDecimal` | src/vm/bigint.c:163-186 | Decimal notation reads back as the number and has no leading zero |
| `BigText.DecimalParts` | src/vm/bigint.c:181-184 | A number is written as its high part followed by its low part padded with zeros, for every split |
| `BigText.ToText` | src/vm/bigint.c:163-186 | The text is the decimal notation of the integer |
| `BigText.FromDigits` | src/vm/bigint.c:147-161 | Accepts exactly digit strings and yields the number they denote with the sign |
| `BigText.RoundTrip` | src/vm/bigint.c:147-186 | Reading back the digits and sign of the text restores sign and limbs |
| `BigText.FromBytes` | src/vm/bigint.c:135-145 | Big-endian bytes denote the resulting integer |
| `BigText.FitsSize` | src/vm/bigint.c:437-451 | Succeeds with the exact value precisely for 0 <= x <= 2^64 - 1 |
| `Rational.BigGcd` | src/vm/numeric.c:21-47 | The loop ends and returns the greatest common divisor of the magnitudes |
| `Rational.MakeRat` | src/vm/numeric.c:286-327 | Fails exactly for a zero denominator; otherwise the same number in lowest terms with a positive denominator |
| `Rational.LowestUnique` | src/vm/value.c:308-310 | Fractions in lowest terms denote the same number exactly when their components are equal |
| `Rational.FractionOfOp` | src/vm/numeric.c:348-370 | The unreduced fraction of each operator denotes the exact sum, difference, product or quotient |
| `Rational.RatArith` | src/vm/numeric.c:334-382 | Rational arithmetic is exact, in lowest terms, and fails exactly on division by zero |
| `Rational.CrossOrder` | src/vm/numeric.c:348-361 | Comparing cross products is comparing the numbers |
| `Rational.RatCompare` | src/vm/numeric.c:348-361 | The sign of the comparison of two rationals |
| `Rational.FlooredUnique` | src/vm/numeric.c:477-494 | The floored remainder is unique |
| `Rational.FlooredRemainder` | src/vm/numeric.c:477-494 | Congruent to the dividend, smaller in magnitude than the divisor, zero or of its sign |
| `Rational.IntegerBinary` | src/vm/numeric.c:460-512 | Exact integer operators; division by zero and a negative Nat fault exactly when they occur |
| `Comparison.OrderedByWorth` | src/vm/numeric.c:384-439 | Wherever the ordering operators do not trap, on two decimals or on two other numbers of any kinds, they order by value |
| `Comparison.TotalPreorder` | src/vm/numeric.c:384-439 | So they are reflexive, antisymmetric up to equality of value, and transitive |
| `Comparison.EqualByWorth` | src/vm/numeric.c:410-431 | Equality over all numeric kinds is equality by value, except that a Nat never equals an Int and a decimal equals only decimals |
| `Comparison.ComponentsDecide` | src/vm/value.c:297-310 | Component-wise equality of rationals inside collections agrees with the operator |
| `Comparison.EqualityNotTransitive` | src/vm/numeric.c:415-431 | Equality across kinds is not transitive: Nat 1 = Rat 1 = Int 1 but Nat 1 is not Int 1 |
| `Comparison.EqualityCloses` | src/vm/numeric.c:415-431 | Of two equal pairs the outer numbers are equal exactly unless they are a Nat and an Int |
| `Comparison.OrderMeetsEquality` | src/vm/numeric.c:415-439 | Numbers at most each other are equal exactly unless they are a Nat and an Int |
| `NumberTheory.NoFactorOfTen` | src/vm/numeric.c:157-196 | A divisor of a power of ten without factors two and five is one |
| `DecimalMath.DenominatorDividesTen` | src/vm/numeric.c:131-196 | If any decimal equals the quotient, the reduced denominator divides a power of ten |
| `DecimalMath.BuiltQuotient` | src/vm/numeric.c:197-211 | Supplying the missing factors yields the exact quotient |
| `DecimalMath.FewestPlaces` | src/vm/numeric.c:212-222 | A quotient without a trailing zero, or without fractional places, has the fewest places of all decimals equal to it |
| `DecimalArith.StripFactors` | src/vm/numeric.c:160-196 | The factor loop ends; it tells how many twos and fives divide, and succeeds exactly when nothing else is left |
| `DecimalArith.TrimZeros` | src/vm/numeric.c:215-222 | The trimming loop ends and keeps the quotient |
| `DecimalArith.FailureMeansNoDecimal` | src/vm/numeric.c:187-195 | When a factor other than two and five is left, no coefficient and exponent equal the quotient |
| `DecimalArith.Divide` | src/vm/numeric.c:131-224 | With a nonzero divisor division succeeds exactly when some decimal equals the quotient, returns it, and with the fewest possible fractional places |
| `DecimalArith.Align` | src/vm/numeric.c:49-67 | Both coefficients at the smaller exponent denote the same numbers |
| `DecimalArith.AddSub` | src/vm/numeric.c:95-123 | Exact sum and difference |
| `DecimalArith.Multiply` | src/vm/numeric.c:125-130 | Exact product |
| `DecimalArith.Remainder` | src/vm/numeric.c:95-123 | Remainder of truncated division at the common scale, exact; fails exactly for a zero divisor |
| `DecimalOrder.CountDigits` | src/vm/numeric.c:232-242 | The number of decimal digits of the coefficient |
| `DecimalOrder.DigitOfLimbs` | src/vm/numeric.c:244-253 | The digit read out of one limb is the digit of the whole number |
| `DecimalOrder.DigitFromTop` | src/vm/numeric.c:244-253 | The digit at a position from the top, zero beyond the last |
| `DecimalOrder.PlaceDecides` | src/vm/numeric.c:269-274 | Decimals whose leading digits stand at different places are ordered by those places |
| `DecimalOrder.CompareDigits` | src/vm/numeric.c:275-283 | The digit loop orders the coefficients as after scale alignment |
| `DecimalOrder.Compare` | src/vm/numeric.c:255-284 | For all coefficients and exponents the sign of the comparison of the two numbers, hence a total preorder |
| `Bytecode.Search` | src/vm/program.c:37-63 | On canonically ordered functions binary search finds what linear search finds |
| `Effects.CallEdgeIsReach` | src/vm/verify.c:11-22 | A plain call is allowed exactly when the callee is not asynchronous and its effect reaches no further than the caller may; an awaited one exactly from asynchronous impure code to asynchronous code |
| `Effects.InferredCallsPass` | src/vm/verify.c:24-54 | A function that is inferred to have a local effect passes the effect check at each of its plain calls to code that is not asynchronous |
| `Effects.LocalMonotone` | src/vm/verify.c:33-51 | Knowing more local functions makes no function less local |
| `Effects.LeastIsLocal` | src/vm/verify.c:24-54 | Every function in the least set keeps to local state given that set: the set is a fixed point |
| `Effects.FlagsIrrelevant` | src/vm/verify.c:24-26 | The inferred set does not depend on the flags present before |
| `Effects.OrderIndependent` | src/vm/verify.c:24-54 | The inferred names do not depend on the order of distinctly named functions |
| `Effects.Program.Scan` | src/vm/verify.c:33-48 | One look at a function decides whether it qualifies under the current flags |
| `Effects.Program.Round` | src/vm/verify.c:29-52 | A round only sets forced flags; a round without change has reached a closed set |
| `Effects.Program.InferLocalEffects` | src/vm/verify.c:24-54 | Ends, changes nothing but flags, and flags exactly the least set of non-pure, non-async functions whose direct calls are all pure or local with one local, and without awaited or indirect calls |
| `Effects.Program.VerifyInstruction` | src/vm/verify.c:92-131 | Accepts exactly instructions with targets in range, known callees, right arity and allowed effect |
| `Effects.Program.VerifyFunction` | src/vm/verify.c:69-136 | Accepts exactly functions with a proper signature, order, parameters, instructions and a RETURN |
| `Effects.Program.Verify` | src/vm/verify.c:56-139 | Accepts exactly the programs in order under the inferred effects |
| `Effects.VerifiedIsOrdered` | src/vm/verify.c:75-78 | A verified program is in canonical order, so lookup may search |
| `InterpreterProofs.EffectShaped` | src/vm/execute.c:725-1228 | Whatever the instruction and the answer, only the top frame changes, calls push one frame that may stand there, returns pop one, and control goes to the next instruction or to the target |
| `InterpreterProofs.AnswerMatters` | src/vm/execute.c:475-680 | The outside world influences a step only where a builtin runs or an iterator is asked |
| `InterpreterProofs.StepKeepsStack` | src/vm/execute.c:1079-1224 | Every step and completion keeps each frame on the stack allowed by the frame below it |
| `InterpreterProofs.PureStack` | src/vm/execute.c:1079-1118 | In every run of every program only pure frames stand above a pure frame |
| `InterpreterProofs.EffectDiscipline` | src/vm/execute.c:1079-1224 | In every run a builtin that is not pure, async or local runs only when all frames are ordinary, an async service only when all frames are async, and under a pure frame only pure builtins |
| `InterpreterProofs.DirectCallsPass` | src/vm/verify.c:112-130 | In a verified program no direct call fails the runtime effect and signature check |
| `InterpreterProofs.VerifiedControl` | src/vm/execute.c:710-722 | In every run of a verified program every frame stays inside its function or just past its end |
| `InterpreterLaws.JumpsTake` | src/vm/execute.c:1119-1134 | JUMP_FALSE takes one Bool off and goes on when it is true, to the target when it is false; JUMP is the same on false without an operand; nothing else changes |
| `InterpreterLaws.IterNextTakes` | src/vm/execute.c:956-995 | ITER_NEXT binds exactly the item it is given and goes on, goes to the target at the end, and traps on a failure |
| `InterpreterLaws.StoreThenLoad` | src/vm/execute.c:732-747 | STORE then LOAD of a name gives the operand back, binds it to the name and leaves every other local alone |
| `InterpreterLaws.LoadThenStore` | src/vm/execute.c:732-747 | LOAD then STORE of a name changes nothing but the counter |
| `InterpreterLaws.ConstThenPop` | src/vm/execute.c:726-751 | CONST pushes its constant, and POP undoes it |
| `InterpreterLaws.DirectCall` | src/vm/execute.c:1079-1118 | A direct call that passes its check leaves the caller with its operands gone and starts the callee with the k-th operand bound to the k-th parameter |
| `InterpreterLaws.VerifiedCall` | src/vm/execute.c:1079-1118 | In a verified program every direct call with enough operands goes through and binds every parameter to its own operand |
| `InterpreterLaws.IndirectCall` | src/vm/execute.c:1158-1224 | A call through a function name on the stack does what the direct call of that function does |
| `InterpreterLaws.ReturnTakes` | src/vm/execute.c:1135-1157 | The operand on top at RETURN is on top of the stack of the caller afterwards, or the result when it was the last frame |
| `InterpreterLaws.FramesIsolated` | src/vm/execute.c:682-1258 | Over any run that stays above a depth the frames below that depth do not change |
| `InterpreterLaws.CallReturns` | src/vm/execute.c:1079-1157 | However long a callee runs, calls and waits: when it returns, its caller goes on behind the call with its operands replaced by the returned value and its locals untouched |
| `InterpreterLaws.BuiltinAnswers` | src/vm/execute.c:1104-1117 | A builtin takes its operands off; its value is pushed at once, or it suspends with the call marked, exits or traps |
| `InterpreterLaws.HandlerCall` | src/vm/execute.c:522-530 | A service calls a handler as a function is called, exactly when the service is asynchronous and the handler is an asynchronous function of that arity; otherwise it traps |
| `InterpreterLaws.WaitIsTransparent` | src/vm/execute.c:1298-1320 | A call that waits and is completed with a value ends in the same state, counters included, as one that returns the value at once |
| `InterpreterLaws.CompletionsChecked` | src/vm/execute.c:1489-1508 | A completion reaches only an execution that waits for it, and traps it exactly when the write failed or the value is not a well-formed read result |
| `InterpreterLaws.TrapsExactly` | src/vm/execute.c:710-1224 | An instruction other than a call traps exactly when its operand or local is missing or of the wrong kind, a call that runs no builtin exactly when its check fails, and running past the end always does |
| `InterpreterLaws.CreatedStarts` | src/vm/execute.c:1260-1286 | An execution starts with one frame at the beginning of its function with its arguments bound |
| `CoverageProofs.FinishPays` | src/vm/coverage.c:133-145 | Completing settles one attempt at that cell, touches no other, and keeps completed equal to fallthrough plus branched; which of the two grows is FinishGrows |
| `CoverageProofs.CompletedCall` | src/vm/execute.c:238-247 | Completing the pending call of the top frame settles exactly the attempt it stands for |
| `CoverageProofs.StepCovered` | src/vm/execute.c:1229-1237 | Every step and completion keeps the coverage invariant |
| `CoverageProofs.CoverageBalance` | src/vm/coverage.c:94-145 | At every step boundary of every run without overflow: attempted = completed + frames pending there while the run lives or has completed, and branch cells have completed = fallthrough + branched |
| `CoverageProofs.CallsUnderWay` | src/vm/execute.c:1135-1157 | Every frame below the top is pending, the top one exactly when waiting, and always at a call instruction |
| `CoverageProofs.NothingOwedAtEnd` | src/vm/coverage.c:94-145 | When a program has completed every attempt has completed |
| `CoverageProofs.EntriesCounted` | src/vm/coverage.c:103-108 | Without overflow the entry counter of a function is the number of its frames ever pushed in the run |
| `CoverageCounts.FinishGrows` | src/vm/coverage.c:133-145 | Completing a branch adds one to branched exactly when it branched and to fallthrough exactly when it did not, at that cell only and up to the ceiling |
| `CoverageCounts.WayIsSeen` | src/vm/execute.c:1119-1131 | The way that is counted is the way of the operand: false or an ended iterator for branched, true or an item for fallthrough |
| `CoverageCounts.BranchesCounted` | src/vm/coverage.c:123-145 | In every run a cell was attempted as often as the run dispatched it, fell through as often as it popped true or got an item, and branched as often as it popped false or found the iterator ended, up to the ceiling |
| `CoverageCounts.OverflowHonest` | src/vm/coverage.c:94-101 | In every run overflow is reported only once some counter has reached its ceiling |
| `CoverageCounts.GapsReported` | src/vm/execute.c:531-537 | A run reports a gap exactly when one of its steps ran a builtin that the counters do not see |
| `CoverageCounters.CellInBounds` | src/vm/coverage.c:115-121 | The offset of a function plus a position in it is inside the flat buffer, and below the offset of the next function |
| `CoverageCounters.CellsDiffer` | src/vm/coverage.c:43-47 | Different instructions have different cells in the buffer |
| `CoverageCounters.CellOwner` | src/vm/coverage.c:22-47 | Every cell of the buffer belongs to an instruction |
| `CoverageCounters.Create` | src/vm/coverage.c:16-51 | A collector is made exactly when ceiling, limits and the number of instructions allow it; the limit is never exceeded on the way |
| `CoverageCounters.Counters.constructor` | src/vm/coverage.c:33-47 | The flat zeroed buffer with its offset loop is one zero cell for every instruction of every function |
| `CoverageCounters.Counters.CellIndex` | src/vm/coverage.c:115-121 | Finds the cell exactly for existing instructions, inside the buffer |
| `CoverageCounters.Counters.PutCell` | src/vm/coverage.c:123-145 | Writing one place of the flat buffer changes the counters of one instruction only |
| `CoverageCounters.Counters.Attempt` | src/vm/coverage.c:123-131 | In the flat buffer one attempt of that instruction is counted up to the ceiling, nothing else moves, and an unknown instruction flags a gap |
| `CoverageCounters.Counters.Finish` | src/vm/coverage.c:133-145 | In the flat buffer one completion and its branch direction are counted as in FinishGrows, nothing else moves, and an unknown instruction flags a gap |
| `Execution.Execution.constructor` | src/vm/execute.c:1260-1286 | A new execution is the modelled machine with one frame |
| `Execution.Execution.FramePush` | src/vm/execute.c:196-236 | The new frame binds parameters to arguments in order and counts an entry |
| `Execution.Execution.Invoke` | src/vm/execute.c:1104-1108 | A checked call answers, suspends, exits, fails, or pushes exactly the callee or handler |
| `Execution.Execution.CallInstruction` | src/vm/execute.c:1079-1224 | Direct and indirect calls pop their operands, make every check, and then invoke |
| `Execution.Execution.ReturnInstruction` | src/vm/execute.c:1135-1157 | RETURN pops the frame, passes the value on and completes the pending call below |
| `Execution.Execution.DispatchOne` | src/vm/execute.c:710-1240 | One pass of the dispatch loop is one step of the machine, whose meaning InterpreterLaws states |
| `Execution.Execution.Advance` | src/vm/execute.c:682-1258 | Advancing by a budget is that many steps, ending early exactly when the machine stops or waits |
| `Execution.Execution.CompletePrint` | src/vm/execute.c:1298-1320 | Accepted exactly while a print is awaited; pushes the acknowledgement or traps |
| `Execution.Execution.CompleteRead` | src/vm/execute.c:1489-1508 | Accepted exactly while a read is awaited; a malformed result traps |
| `Handover.StepKeeps` | src/vm/root_read.c:49-214 | Every step of any operation keeps the protocol invariant of all operations |
| `Handover.RunKeeps` | src/vm/root_read.c:49-214 | So does every interleaving of any number of owners and workers |
| `Handover.FreedOnce` | src/vm/root_read.c:64-82 | No record is released twice, or before both sides are finished with it |
| `Handover.NoUseAfterFree` | src/vm/root_read.c:197-214 | No step that can happen next touches a released record |
| `Handover.ResultIsMade` | src/vm/root_read.c:64-76 | Whatever else happens, the result that appears in a record is the value its worker made |
| `Handover.DoneIsFinal` | src/vm/root_read.c:162-190 | An owner that sees done sees the value made for the operation; over every continuation without its own destroy that result stays and the record is not released |
| `Handover.AdmissionCounter` | src/vm/root_read.c:123-132 | The shared counter is the number of slots taken and not returned, never above the limit |
| `Handover.RealLimits` | src/vm/console_write.c:147-156 | In every run at most 32 reads and at most 4 console writes hold a slot |
| `Handover.NothingLeaks` | src/vm/console_write.c:53-67 | When both sides are gone the record was released once, its slot returned once and its descriptor closed once |
| `Handover.AllReturned` | src/vm/root_read.c:57-61 | When all operations are complete the counter is zero |
| `Handover.Progress` | src/vm/console_write.c:102-111 | Until an operation is complete a move other than polling is enabled, and every enabled move but polling and a lost compare-and-swap brings it closer to completion |
| `Handover.LostToProgress` | src/vm/console_write.c:147-150 | A compare-and-swap that loses without a spurious failure has lost to a move of another operation, made since the count was read, that brought that operation closer to completion |
| `Handover.CountWasRead` | src/vm/root_read.c:124-128 | The count that an owner holds is one that it read from the shared counter at some step of the run |
| `Handover.RefusedOnlyWhenFull` | src/vm/root_read.c:124-134 | An owner is turned away only after it read the counter at its limit, when all admission slots were taken; it then completes its record itself and takes no slot |
| `Utf8.Masks` | src/vm/utf8.c:18-35 | The bit masks of the source are the arithmetic used here |
| `Utf8.Reads` | src/vm/utf8.c:11-45 | A string that starts with the encoding of a scalar value is accepted as that value |
| `Utf8.Writes` | src/vm/utf8.c:11-45 | What is accepted is the encoding of the value read |
| `Utf8.PrefixFree` | src/vm/utf8.c:8-47 | No encoding is a prefix of another |
| `Utf8.Validate` | src/vm/utf8.c:8-47 | Accepts exactly the encodings of sequences of Unicode scalar values |
| `Utf8.PrefixOfBytes` | src/vm/builtins_text.c:70-89 | A byte prefix is a scalar prefix, both ways |
| `Utf8.EncodeInjective` | src/vm/value.c:313-317 | Equal bytes are equal texts |
| `Utf8.ByteOrder` | src/vm/numeric.c:399-406 | Byte order of encodings is scalar order |
| `Text.CachedCounts` | src/vm/value.c:172-182 | Counting non-continuation bytes counts the characters, and the flag says all are ASCII |
| `Text.MakeText` | src/vm/value.c:156-184 | The value caches the right count and flag for the text its bytes encode |
| `Text.CharacterBytes` | src/vm/utf8.c:49-75 | Finds exactly the bytes of a character; the ASCII shortcut agrees with the scan |
| `Text.Slice` | src/vm/builtins_text.c:39-68 | Traps exactly on bad bounds; otherwise holds the characters between them |
| `Text.StartsWithAt` | src/vm/builtins_text.c:70-89 | Decides whether the characters from an offset start with those of another text |
| `Text.Reverse` | src/vm/builtins_text.c:91-108 | The buffer filled from its end holds the characters from the last to the first |
| `Text.Compare` | src/vm/numeric.c:399-406 | Bytewise comparison is the lexicographic order of scalar values, zero exactly for equal texts |
| `Text.Decode` | src/vm/builtins_text.c:177-184 | Traps exactly on malformed bytes and otherwise holds the text they encode |
| `ServerProofs.FinishKeeps` | src/vm/tcp_server.c:142-161 | Finishing a client, as a success exactly when a write has sent its whole response, keeps the invariant: its slot is free, active follows, and its admission is recorded once and counted by the way it left |
| `ServerProofs.AcceptKeeps` | src/vm/tcp_server.c:476-527 | Every outcome of an accept keeps the invariant: distinct admission numbers within the limits, and a finite server stops at its last client |
| `ServerProofs.DeadlinesKeeps` | src/vm/tcp_server.c:283-334 | Expiry, drain and the final report keep the invariant |
| `ServerProofs.DeadlinesEnforced` | src/vm/tcp_server.c:283-334 | Afterwards no live client is past its deadline or the drain deadline, and a stopping server has clients |
| `ServerProofs.ServeKeeps` | src/vm/tcp_server.c:722-765 | The readiness loop keeps the invariant for every snapshot and every socket behaviour |
| `ServerProofs.AdvanceLoopKeeps` | src/vm/tcp_server.c:955-1013 | So does the handler loop for every handler behaviour |
| `ServerProofs.RunKeeps` | src/vm/tcp_server.c:642-1041 | So does every sequence of public calls |
| `ServerProofs.ActiveClients` | src/vm/tcp_server.c:142-161 | In every run active is the number of occupied slots, at most the concurrency limit |
| `ServerProofs.ContinuousBalance` | src/vm/tcp_server.c:142-152 | In continuous mode admitted = active + succeeded + failed until a trap or failure; succeeded is the number of admissions that left with their whole response sent and failed the number of the others that left; the summary adds up |
| `ServerProofs.FiniteBalance` | src/vm/tcp_server.c:153-161 | In finite mode each admission is one live client or has one stored outcome, never both |
| `ServerProofs.FiniteReport` | src/vm/tcp_server.c:310-332 | A normal finish reports an outcome for every admission, in order, and it is a success exactly when that admission left with its whole response sent |
| `ServerProofs.LeavesOnce` | src/vm/tcp_server.c:142-161 | In every run an admission leaves at most once, is not held any more, and in finite mode its outcome tells how it left |
| `ServerProofs.ResponseDecides` | src/vm/tcp_server.c:614-639 | A response that is not empty decides alone: success exactly when all of it was sent; an empty one must also reach a write |
| `ServerProofs.EmptyResponseLost` | src/vm/tcp_server.c:296-305 | An empty response whose client is late counts as failed although nothing of it is missing |
| `ServerProofs.SnapshotComplete` | src/vm/tcp_server.c:659-707 | A snapshot holds the listener exactly while there is room and no stop, and every client that waits for its socket |
| `ServerClients.RunSteady` | src/vm/tcp_server.c:642-1041 | Over any run a client keeps its slot, connection and deadline and only moves forward, what has left stays recorded, a stopping server admits nobody and keeps its drain deadline, and an ended one changes no more |
| `ServerClients.AcceptTakes` | src/vm/tcp_server.c:476-527 | A connection is admitted exactly when the server is neither stopping nor full, in a free slot with the next number and a fresh deadline; one that cannot be configured leaves as failed; the last of a finite number starts the drain |
| `ServerClients.DeadlinesTake` | src/vm/tcp_server.c:283-334 | Deadlines free exactly the slots of overdue clients, stop a finite server at its admission deadline, and end a stopping one without clients with its report |
| `ServerProofs.WithinLimits` | src/vm/tcp_server.c:529-639 | Received and sent sizes never exceed their limits, so no remaining size underflows, and a client has an execution exactly while its handler runs or waits for input |
| `ServerProofs.ReadinessIdentity` | src/vm/tcp_server.c:739-746 | However slots are reused meanwhile, readiness is delivered only to the very connection it was captured for |
| `TcpServer.VMTcpServer.constructor` | src/vm/tcp_server.c:337-427 | A started server is the modelled empty one and satisfies the invariant |
| `TcpServer.VMTcpServer.CloseAll` | src/vm/tcp_server.c:99-107 | All slots are freed and active is zero |
| `TcpServer.VMTcpServer.ApplyDeadlines` | src/vm/tcp_server.c:283-334 | The in-place deadlines are the modelled ones; tells whether the server lives on |
| `TcpServer.VMTcpServer.FindFree` | src/vm/tcp_server.c:487-488 | The slot loop finds the first free slot |
| `TcpServer.VMTcpServer.AcceptClient` | src/vm/tcp_server.c:476-527 | The in-place admission is the modelled one |
| `TcpServer.VMTcpServer.WriteClient` | src/vm/tcp_server.c:614-639 | Response bytes are sent, and the client finishes when all are |
| `TcpServer.VMTcpServer.TakeSnapshot` | src/vm/tcp_server.c:659-707 | The rotating loop lists the listener and every client that waits for its socket |
| `TcpServer.VMTcpServer.ServeAll` | src/vm/tcp_server.c:722-765 | The readiness loop serves the snapshot as modelled, with expiry before each entry |
| `TcpServer.VMTcpServer.PollServer` | src/vm/tcp_server.c:642-772 | The in-place poll is the modelled one |
| `TcpServer.VMTcpServer.RunHandler` | src/vm/tcp_server.c:970-1012 | One turn of a handler is the modelled one |
| `TcpServer.VMTcpServer.AdvanceServer` | src/vm/tcp_server.c:955-1018 | The round-robin loop is the modelled one, and ends within budget and slots |
| `TcpServer.VMTcpServer.StopServer` | src/vm/tcp_server.c:1030-1041 | Stopping is the modelled call |

## Left out

- Allocation failure inside an operation (the `goto oom` paths), except where it ends a detached operation or an admission.
- HTTP resource values: the heap treats them as opaque owners that never share storage; their mutation is not modelled.
- Routed (HTTP) mode of the TCP server, its readiness callback and the waits of `http_close`: tied to the HTTP runtime.
- Opcodes that only build or inspect values (UNARY, BINARY, MAKE_*, INDEX_GET, FIELD_GET, INTERPOLATE, ITER_INIT, MATCH_*): they add cases without touching calls, waits or effects.
- Early loop exit through `yield_requested`, and executions without a coverage collector or with one for another program.
- Waits of an execution on console, filesystem, network or server adapters resume like a read and are not separate cases.
- The write loop of `write_worker` and the signal handling around it: the worker is one step that ends with any result.
- Error message texts; the model keeps which error occurs where it matters (verification, numeric faults, server outcomes as success or failure).
- The negative-zero flag of decimals, which no comparison or operator modelled here reads.
- Clock arithmetic near the end of the 64-bit range in the server: `clock_ms` refuses such times, and deadlines are natural numbers here.
- Bytecode decoding, rendering, collections by linear scan, builtin registry, coverage files, HTTP state and writers, sockets, files, processes and TLS.

# A verified model of the script engine and its scanner

The repository runs vulnerability checks written in a small script language and scans hosts
and ports. This project models the parts of it where an error would be hard to see, and
proves what they are for.

- **Interpreter** (`Language`, `Scopes`, `Structured`, `FlagMachine`, `Simulation`, `Fuel`,
  `Isolation`, `Laws`, `VmContext`, `Executor`). The engine walks instruction trees and implements
  break, continue and return as bits in a chain of contexts. `Executor` and `VmContext` are
  the engine and its contexts as objects on the heap; they are proved to compute
  `FlagMachine`, the same steps on values; `Simulation` proves that machine equal to
  `Structured`, an ordinary semantics with completions and no flags. `Isolation` shows what
  a function can change, `Fuel` that the bound on the depth, which makes the functions
  total, does not matter. `Laws` says what the operators, branches and loops of that semantics
  mean, with a proof rule for each loop.
- **Shuffles** (`Words`, `Feistel`, `RoundTrips`, `BlackRock1`, `BlackRock2`, `NetworkRules`). Two
  Feistel networks over a box, walked along its cycles down to an arbitrary range: permutations,
  and when unshuffling undoes them. `BlackRock1` is the one the scan uses; `NetworkRules` says in
  plain arithmetic what a round, a walk and the two round functions are.
- **Timeout ring** (`TimeoutSpec`, `TimeoutRing`). A hashed timer wheel of intrusive lists
  with back links, as heap objects, against a whole-run specification on values.
- **Script images** (`Varint`, `Images`, `ScriptStream`, `Scripts`, `KeyResolution`,
  `ScriptLoading`, `LoadHistory`, `Loader`, `Archive`, `BlockFiles`, `FormatRules`). Building,
  storing, reading, relocating and finding scripts, in one executor or in several that share a
  cache. `LoadHistory` says what executors hold after any run, `FormatRules` what the files look
  like byte by byte.
- **Scheduling** (`LoadOrder`, `Fork`). Depth-first loading on a graph that may have cycles,
  grouping, and the odometer over forked values.
- **Scan order** (`HostScan`). Which target is probed at which step, with that shuffle.
- **Codecs** (`Url`, `UrlRules`, `Base64`, `Base64Rules`). Percent and query encoding, and two
  base64 codecs; the rules say, character by character, what they do to any text.

`Common` and `Words` hold what several of them need. `dafny verify dfyconfig.toml` checks
everything.

Methods have the loops and fields of the C and C++ code. Each is proved equal to a function
on values, and the theorems about that function are lemmas beside it. A C++ exception is a
`None` or `false` result, or an `Error` in the interpreter.

Where the code differs from what its comments or its neighbours suggest, the model follows
the code, and a lemma says what holds:

- The self-tests of both shuffles say that decryption fails. `BlackRock1` undoes its shuffle for
  every round count (`BlackRock.Shuffle`, `BlackRock.Unshuffle`). `BlackRock2` does for every even
  count; `OddDecoded`, `BoxRoundTripsExactly` and `RangesRoundTripExactly` say exactly when it does
  for an odd one, for any round function, and `SourceRoundTripsExactly` that with the one in the
  source, on boxes of at least 64 columns and four rows, no odd count will do.
- An entry added to the ring below its index is not found while the time stays below the index
  (`LateAddIsMissed`). A ring always finds what is due exactly if it holds nothing below its
  index (`PromptExactly`), and only such an add takes that away (`AddKeepsPromptExactly`);
  `RemoveExact` says when something is found, with no assumption.
- With IPv6 targets some pairs are probed twice (`ScanCoversEveryPair`), although the comment in
  the send loop speaks of a 1-to-1 order.
- The block decoder for base64 does not return on some texts: `StuckExactly` says on which,
  `InsertExactly` and `WhiteSpaceSticks` which inserted characters it survives.
- Escaping for hosts and zones cannot be undone in general (`UnescapeInverts` says when).
- Both key ranges of a cached script start at the same base. That is sound because a builder
  never makes more constants than instructions (`BuiltSound`, `ShareOk`); `ConstantsCollide`
  says when it would not be.

## Model

| member | source | states |
|---|---|---|
| `Simulation.StmtAgrees` | engine/vm.cc:301-447 | **Main.** For every statement, chain of contexts and fuel: the engine with its flag bits ends in the same store and the same outcome as the structured semantics, and its flags are exactly those of the completion (none, break, continue, or return up to and including the nearest function) |
| `Simulation.ExprAgrees` | engine/vm.cc:301-361 | evaluating an expression on unflagged contexts gives the structured value or error and leaves no flag behind, calls included |
| `Simulation.SpineAgrees` | engine/vm.cc:1289-1305 | the loop down the left spine of a sum equals recursion that evaluates the right operand first, side effects and errors included |
| `Simulation.SpineIsLeftToRight` | engine/vm.cc:1289-1305 | for operands that leave the state alone the sum is that of plain left-to-right recursion, for any `+` |
| `Simulation.ArgsAgree` | engine/vm.cc:1235-1247 | positional arguments of a builtin method are evaluated in order, the first failure ends it |
| `Simulation.CallAgrees` | engine/vm.cc:864-872 | a script call ends its body at the first return, takes the value from the function context and leaves no flag in the caller |
| `Simulation.FillAgrees` | engine/vm.cc:757-805 | named and positional arguments are bound the same way in both semantics, the new context below the caller being untouched while they are evaluated |
| `Simulation.FormalsAgree` | engine/vm.cc:757-773 | formal parameters are declared in the function context before the arguments are evaluated |
| `Simulation.ListAgrees` | engine/vm.cc:676-686 | a statement list stops after the statement that raised a flag |
| `Simulation.BranchAgrees` | engine/vm.cc:374-380 | a conditional runs its body exactly when its condition holds |
| `Simulation.ElifsAgree` | engine/vm.cc:564-597 | else-if branches are tried in order until one applies, otherwise the else part runs |
| `Simulation.WhileAgrees` | engine/vm.cc:1364-1376 | a while loop: continue is cleared after the body, break and return end it |
| `Simulation.DoWhileAgrees` | engine/vm.cc:1378-1389 | a do-while loop, likewise |
| `Simulation.ForAgrees` | engine/vm.cc:911-933 | a for loop, likewise; the step is skipped when the loop was left |
| `Simulation.CasesAgree` | engine/vm.cc:1249-1287 | a switch: after a hit the following cases run too until a break, the default runs when none was hit |
| `Fuel.EngineComputesSemantics` | engine/vm.cc:301-447 | **Main.** The engine ends on a program exactly when the structured semantics does, with the same result, whatever bound on the depth was used |
| `Fuel.OneResult` | engine/vm.cc:301-447 | two runs of the structured semantics that both end have the same result |
| `Fuel.ExecMore` | engine/vm.cc:301-447 | a run that ended ends the same way with more fuel |
| `Laws.AndMeans` | engine/vm.cc:599-664 | `&&`, of any operands: its value is 0 or 1, and true exactly when the left operand is true and the right one, evaluated in the state the left one left, is true; the right one is not evaluated when the left one is false |
| `Laws.OrMeans` | engine/vm.cc:599-664 | `||`, likewise: the right operand is not evaluated when the left one is true |
| `Laws.EngineAnd` | engine/vm.cc:599-664 | **Main.** the same of the engine with its flag bits |
| `Laws.EngineOr` | engine/vm.cc:599-664 | the same of the engine for `||` |
| `Laws.OperatorsMean` | engine/vm.cc:599-664 | operators get the values of their operands in the order written, the operands evaluated from left to right, those of a sum from right to left; an operator without a value throws |
| `Laws.AssignMeans` | engine/vm.cc:469-475 | an assignment yields the assigned value, and the variable then reads it |
| `Laws.UpdateMeans` | engine/vm.cc:469-562 | a compound assignment hands the operator the old value and the operand; the variable then reads what is to be stored, and the expression yields the other value |
| `Laws.ArgumentsBound` | engine/vm.cc:757-805 | the i-th positional argument is what the i-th parameter reads; a parameter without one keeps its value |
| `Laws.IfMeans` | engine/vm.cc:564-597 | an if statement runs its body or its else part, as its condition says |
| `Laws.ElseIfMeans` | engine/vm.cc:564-597 | an else-if is an if statement in the else part |
| `Laws.HitsListed` | engine/vm.cc:1265-1272 | a case is hit exactly when the subject is the same as one of the values it lists |
| `Laws.CaseMeans` | engine/vm.cc:1249-1287 | a case runs exactly when it is hit, the others go on being tried, and the default runs when none was hit |
| `Laws.WhileRule` | engine/vm.cc:1364-1376 | **Main.** a proof rule: a while loop that ends without break or return ends with its condition false, in a state that has every property its turns keep |
| `Laws.DoWhileRule` | engine/vm.cc:1378-1389 | the same for a do-while loop, whose body runs once first |
| `Laws.ForRule` | engine/vm.cc:911-933 | the same for a for loop, whose step runs after every turn that goes on |
| `Isolation.BodyConfined` | engine/vm.cc:864-872 | **Main.** The body of a function changes bindings of its own context and of the file only, never of a context of its caller |
| `Isolation.ExecConfined` | engine/vm.cc:301-447 | a statement changes bindings only in contexts up to its own function and in the file; nil, true and false keep their values everywhere, and no declared function is removed or replaced |
| `Isolation.InvokeConfined` | engine/vm.cc:864-872 | a whole call, argument binding included, is confined to what its caller may change |
| `Isolation.EvalConfined` | engine/vm.cc:301-361 | the same for expressions |
| `Isolation.FunctionStays` | engine/vmcontext.cc:273-297 | a declared function is found, unchanged, after any statement |
| `Scopes.ReadsNearest` | engine/vmcontext.cc:230-255 | **Main.** on every chain a name reads the first context up to and including the nearest function that holds it; else the file, across the function; else nil |
| `Scopes.WritesNearest` | engine/vmcontext.cc:178-208 | **Main.** an assignment writes to the context that would be read; a name nobody holds is created here inside a function, and else in the file, also from within loops and switches; the constants are refused |
| `Scopes.WritesHere` | engine/vmcontext.cc:164-208 | a write to the own context, and a declaration, which is nil unless the name was there |
| `Scopes.FreshHolds` | engine/vmcontext.cc:43-66 | a context starts with exactly nil, true and false |
| `Scopes.DeclaresExactly` | engine/vmcontext.cc:273-287 | a declaration is refused exactly outside the file context, for a forbidden name and for one declared already; it changes nothing but the functions of the file |
| `Scopes.DeclaredFound` | engine/vmcontext.cc:273-297 | a function declared in the file is the one its name finds from every chain over that file; other names find what they found before |
| `Scopes.SetThenGet` | engine/vmcontext.cc:178-244 | a successful set is what the same context then reads |
| `Scopes.OtherNamesUnchanged` | engine/vmcontext.cc:178-244 | a set changes no other name in any context |
| `Scopes.WritesOneName` | engine/vmcontext.cc:178-208 | a set changes one name in one context |
| `Scopes.OwnerReach` | engine/vmcontext.cc:178-208 | the context that owns a name lies up to the nearest function or is the file |
| `Scopes.DeclareConfined` | engine/vmcontext.cc:164-176 | a declaration is confined to its own context |
| `VmContext.VMContext.constructor` | engine/vmcontext.cc:43-66 | a new context starts with the three constants, no flag, on top of its parent |
| `VmContext.VMContext.BreakExecuted` | engine/vmcontext.cc:95-100 | sets the break bit of this context only, refused outside loops and switches |
| `VmContext.VMContext.ContinueExecuted` | engine/vmcontext.cc:102-107 | sets the continue bit of this context only, refused outside loops |
| `VmContext.VMContext.CleanContinueFlag` | engine/vmcontext.hpp:58 | clears the continue bit of this context and nothing else |
| `VmContext.VMContext.IsInFunctionContext` | engine/vmcontext.cc:133-142 | whether the chain holds a function context |
| `VmContext.VMContext.ReturnExecuted` | engine/vmcontext.cc:118-131 | flags every context up to and including the nearest function with the value, and no other; refused outside functions |
| `VmContext.VMContext.GetTopContext` | engine/vmcontext.cc:156-162 | the last context of the chain |
| `VmContext.VMContext.AddVar` | engine/vmcontext.cc:164-176 | declares a name here unless it is there already; constants are refused |
| `VmContext.VMContext.FindTarget` | engine/vmcontext.cc:183-205 | the context a set writes to: the owner of the name, else this one inside a function, else the file; `WritesNearest` says which one that is |
| `VmContext.VMContext.SetVarValue` | engine/vmcontext.cc:178-208 | writes that one binding, all else unchanged; constants are refused |
| `VmContext.VMContext.GetVarValue` | engine/vmcontext.cc:230-255 | the value in the owner of the name, nil without one; `ReadsNearest` says whose value that is |
| `VmContext.VMContext.AddFunction` | engine/vmcontext.cc:273-287 | a function is added to the file context only, and only under a new name that is not forbidden; an existing one is never replaced |
| `VmContext.VMContext.GetFunction` | engine/vmcontext.cc:289-297 | functions are looked up in the file context; `DeclaredFound` says what is found |
| `Executor.Executor.ExecuteStmt` | engine/vm.cc:301-447 | **Main.** the engine on heap-allocated contexts computes the flag machine: result and every context of the chain |
| `Executor.Executor.ExecuteExpr` | engine/vm.cc:301-361 | the same for expressions; `EngineAnd` and `EngineOr` say what that gives for `&&` and `||` |
| `Executor.Executor.BatchAddOperation` | engine/vm.cc:1289-1305 | the two loops of a sum, with the pending operands in a list |
| `Executor.Executor.CallFunction` | engine/vm.cc:704-718 | script functions before builtin methods, an error for neither |
| `Executor.Executor.CallScriptFunction` | engine/vm.cc:864-872 | a call on a fresh context |
| `Executor.Executor.FillActualParameters` | engine/vm.cc:757-805 | argument binding in the new context |
| `Executor.Executor.UpdateVar` | engine/vm.cc:469-562 | assignment and compound assignment |
| `Executor.Executor.ExecuteList` | engine/vm.cc:676-686 | the loop over a statement list |
| `Executor.Executor.ExecuteIfStatement` | engine/vm.cc:564-597 | if, else if, else |
| `Executor.Executor.ExecuteWhileStatement` | engine/vm.cc:1364-1376 | the while loop |
| `Executor.Executor.ExecuteDoWhileStatement` | engine/vm.cc:1378-1389 | the do-while loop |
| `Executor.Executor.ExecuteForStatement` | engine/vm.cc:911-933 | the for loop |
| `Executor.Executor.ExecuteSwitchStatement` | engine/vm.cc:1249-1287 | the loop over the cases |
| `Executor.Executor.ExecuteScript` | engine/vm.cc:135-164 | a script in a fresh file context ends as the structured semantics says |
| `Feistel.WalkIsPermutation` | thirdpart/masscan/crypto-blackrock2.c:415-425 | **Main.** Cycle walking is a permutation of [0, range): total, injective and onto, for every box of two sides, round function, seed and round count |
| `Feistel.WalkInverse` | thirdpart/masscan/crypto-blackrock2.c:415-439 | walking with a map of the box is undone by walking with its inverse |
| `Feistel.MoveInverse` | thirdpart/masscan/crypto-blackrock2.c:339-411 | the network by whole pairs of rounds and the one by the exact number are bijections of the box, whatever the round count |
| `RoundTrips.EvenDecoded` | thirdpart/masscan/crypto-blackrock2.c:339-411 | for an even round count DECRYPT inverts ENCRYPT |
| `RoundTrips.EvenRoundTrips` | thirdpart/masscan/crypto-blackrock2.c:415-439 | **Main.** for an even round count unshuffle and shuffle are mutual inverses on every range |
| `RoundTrips.OddDecoded` | thirdpart/masscan/crypto-blackrock2.c:339-411 | **Main.** for an odd round count and any round function DECRYPT gives an encrypted index back if and only if the round that completes the count adds a multiple of the box side to its left half |
| `RoundTrips.BoxRoundTripsExactly` | thirdpart/masscan/crypto-blackrock2.c:339-411 | **Main.** for any round function the whole box round-trips if and only if the count is even or that round is without effect on every left half |
| `RoundTrips.RangesRoundTripExactly` | thirdpart/masscan/crypto-blackrock2.c:339-439 | **Main.** for any round function on a power-of-two box: all ranges below its size round-trip if and only if the count is even, or the added round is without effect on every left half, or the box has two rows, only the last column changes and the largest index stays in it |
| `RoundTrips.TopRangeExactly` | thirdpart/masscan/crypto-blackrock2.c:339-439 | the same condition, exactly, for the largest of these ranges alone |
| `RoundTrips.DetourHappens` | thirdpart/masscan/crypto-blackrock2.c:339-439 | the case of two rows is needed: a network whose added round changes something, while every range below the size of the box round-trips and the whole box does not |
| `BlackRock2.SourceRoundTripsExactly` | thirdpart/masscan/crypto-blackrock2.c:285-439 | **Main.** with the round function of the source, for every seed and every box of at least 64 columns and four rows: the largest range below the size of the box round-trips if and only if the round count is even, and so do all these ranges together |
| `BlackRock2.SourceRoundAdds` | thirdpart/masscan/crypto-blackrock2.c:289-313 | with that round function the round added to an odd count always changes some left half |
| `RoundTrips.RoundTripExactlyWhenEven` | thirdpart/masscan/crypto-blackrock2.c:339-439 | quantified over all round functions: the round trip holds for all of them if and only if the count is even |
| `Feistel.Returns` | thirdpart/masscan/crypto-blackrock2.c:415-425 | every element of the box comes back to itself, so the walk ends |
| `Feistel.HalvesInverse` | thirdpart/masscan/crypto-blackrock2.c:351-360 | undoing the round pairs in reverse order restores the halves |
| `Feistel.PairInverse` | thirdpart/masscan/crypto-blackrock2.c:352-359 | one round pair is undone |
| `NetworkRules.EncryptMeans` | thirdpart/masscan/rand-blackrock.c:192-216 | encryption in plain numbers: the index is split by the first side; each of the rounds makes the right half the left one, and the new right half the left one plus the round function of the old right one, modulo the first side in odd and the second one in even rounds; the halves are joined, exchanged after an odd count |
| `NetworkRules.EncryptPairsMeans` | thirdpart/masscan/crypto-blackrock2.c:339-367 | the same for the second network, which completes an odd count |
| `NetworkRules.WalkMeans` | thirdpart/masscan/rand-blackrock.c:267-277 | a shuffle moves the index once, and on while it lies outside the range |
| `NetworkRules.ReadMeans` | thirdpart/masscan/rand-blackrock.c:164-184 | the first round function: which bytes select S-box entries, and where in the word these go |
| `NetworkRules.RoundMeans` | thirdpart/masscan/crypto-blackrock2.c:289-313 | the second round function: which six bits select from which table, in odd and in even rounds |
| `NetworkRules.Bitwise` | thirdpart/masscan/rand-blackrock.c:164-184 | and, or, exclusive or work bit by bit |
| `BlackRock2.NextPowerOfTwo` | thirdpart/masscan/crypto-blackrock2.c:229-240 | the least power of two from 2 up that exceeds the number |
| `BlackRock2.BitCount` | thirdpart/masscan/crypto-blackrock2.c:241-250 | the exponent of a power of two |
| `BlackRock2.BlackRock.constructor` | thirdpart/masscan/crypto-blackrock2.c:254-283 | powers of two a and b with a * b > range, masks and bit counts to match |
| `BlackRock2.BlackRock.Encipher` | thirdpart/masscan/crypto-blackrock2.c:339-367 | masks, shifts and 64-bit sums compute the Feistel network, nothing overflows |
| `Feistel.Decipher` | thirdpart/masscan/crypto-blackrock2.c:368-411 | div, mod and the explicit modular subtraction compute the inverse rounds, for any count |
| `Feistel.Subtract` | thirdpart/masscan/crypto-blackrock2.c:385-394 | the branches compute the difference modulo the box side |
| `BlackRock2.BlackRock.Shuffle` | thirdpart/masscan/crypto-blackrock2.c:415-425 | terminates and ends where the walk ends, in range |
| `BlackRock2.BlackRock.Unshuffle` | thirdpart/masscan/crypto-blackrock2.c:429-439 | the same for the other direction |
| `BlackRock1.ReadLeavesRoom` | thirdpart/masscan/rand-blackrock.c:164-184 | the round function leaves bits 39 to 48 clear, so a half below 2^48 is added to it without wrapping around |
| `BlackRock1.BlackRock.constructor` | thirdpart/masscan/rand-blackrock.c:108-155 | sides with a * b > range and below 2^48, the product below 2^64 throughout |
| `BlackRock1.BlackRock.Sides` | thirdpart/masscan/rand-blackrock.c:111-150 | the tabulated or rooted sides, the second one raised until the box is larger than the range; it ends |
| `BlackRock1.BlackRock.Encipher` | thirdpart/masscan/rand-blackrock.c:192-216 | div, mod and 64-bit sums compute the rounds, nothing overflows |
| `BlackRock1.BlackRock.Shuffle` | thirdpart/masscan/rand-blackrock.c:267-277 | **Main.** terminates in range where the walk ends, and unshuffling leads back, for any round count |
| `BlackRock1.BlackRock.Unshuffle` | thirdpart/masscan/rand-blackrock.c:281-291 | terminates in range, and shuffling its result leads back, although the comment in the self-test says that decryption fails |
| `TimeoutSpec.RunExact` | thirdpart/masscan/event-timeout.c:100-162 | over any run of adds not below the index, re-adds and removes from an empty ring, the ring stays well formed and nothing in it lies below the index |
| `TimeoutSpec.HoldsWaiting` | thirdpart/masscan/event-timeout.c:100-162 | **Main.** at every point of such a run the ring holds exactly the entries added, not added anew and not handed out since |
| `TimeoutSpec.PollExact` | thirdpart/masscan/event-timeout.c:130-162 | **Main.** every remove of such a run hands out an entry that is due and still waits, or nothing, and nothing only when every waiting entry is later |
| `TimeoutSpec.OncePerAdd` | thirdpart/masscan/event-timeout.c:100-162 | an entry handed out twice, with whatever timestamps, was added again in between |
| `TimeoutSpec.DrainExact` | thirdpart/masscan/event-timeout.c:130-162 | **Main.** draining returns exactly the due entries, each once, none early, and leaves exactly the others |
| `TimeoutSpec.RemoveFacts` | thirdpart/masscan/event-timeout.c:130-162 | a remove hands out one due entry and takes out that one only, or none when all are later |
| `TimeoutSpec.RemoveExact` | thirdpart/masscan/event-timeout.c:130-162 | with no assumption on what was added: remove finds something exactly when a due entry sits in a slot the index still passes |
| `TimeoutSpec.RemoveWhere` | thirdpart/masscan/event-timeout.c:130-162 | on any ring: a remove takes the first due entry of the first slot, from its index up to the time asked for, that has one, and stays at that index; otherwise it goes on to the index behind that time |
| `TimeoutSpec.AddInFront` | thirdpart/masscan/event-timeout.c:100-125 | an entry that is not linked goes to the front of the slot of its timestamp, and nothing else changes |
| `TimeoutSpec.AddMoves` | thirdpart/masscan/event-timeout.c:100-125 | one that is linked is taken out of its slot and goes to the front of the slot of its new timestamp |
| `TimeoutSpec.LateAddIsMissed` | thirdpart/masscan/event-timeout.c:136-149 | in every ring an entry added below the index is held and not found at any time from its timestamp up to the index |
| `TimeoutSpec.PromptExactly` | thirdpart/masscan/event-timeout.c:130-162 | **Main.** a well-formed ring finds something whenever something is due if and only if it holds nothing below its index |
| `TimeoutSpec.AddKeepsPromptExactly` | thirdpart/masscan/event-timeout.c:100-149 | **Main.** an add keeps that promise if and only if its timestamp is not below the index |
| `TimeoutSpec.ApplyFacts` | thirdpart/masscan/event-timeout.c:100-162 | one call changes the linked set by exactly its entry |
| `TimeoutSpec.LinkFacts` | thirdpart/masscan/event-timeout.c:119-124 | linking adds exactly one entry, in the slot of its timestamp |
| `TimeoutSpec.EraseFacts` | thirdpart/masscan/event-timeout.h:39-50 | unlinking takes out exactly one entry |
| `TimeoutRing.Timeouts.constructor` | thirdpart/masscan/event-timeout.c:65-94 | an empty ring at the given time |
| `TimeoutRing.Timeouts.Unlink` | thirdpart/masscan/event-timeout.h:39-50 | on the linked structure: the entry leaves its list, all back links stay right; an unlinked entry is left alone |
| `TimeoutRing.Timeouts.Add` | thirdpart/masscan/event-timeout.c:100-125 | moves the entry to the front of its slot, wherever it was linked before |
| `TimeoutRing.Timeouts.Remove` | thirdpart/masscan/event-timeout.c:130-162 | computes the remove of the specification on the linked structure |
| `TimeoutRing.Timeouts.FindDue` | thirdpart/masscan/event-timeout.c:139-145 | the first due entry of the slot, found by following the links |
| `TimeoutRing.Timeouts.AbsWellFormed` | thirdpart/masscan/event-timeout.c:44-61 | in every valid ring each linked entry is in one slot, once, the one of its timestamp, and following its back link leads to a place in the ring that holds it |
| `LoadOrder.InitScripts` | taskmgr.cc:482-525 | **Main.** terminates on every graph; succeeds exactly when no reachable dependency is missing, and then the order is good |
| `LoadOrder.InitDependencies` | taskmgr.cc:536-569 | what one recursive call adds to the order, cyclic graphs included |
| `LoadOrder.Finished` | taskmgr.cc:482-569 | a successful load: no duplicates, exactly the reachable scripts, each behind its dependencies unless they depend on it, and everything a cycle reaches in front of the last script of the cycle |
| `LoadOrder.OrderMeans` | taskmgr.cc:482-569 | **Main.** the order in terms of the requested ids and of the attributes alone: exactly the scripts that some requested one leads to along listed dependencies, each once, each behind all dependencies it lists but for those that lead back to it |
| `LoadOrder.MissingMeans` | taskmgr.cc:482-569 | loading fails exactly when such a script is not in the database |
| `LoadOrder.GroupScripts` | taskmgr.cc:527-531 | the lists of the categories, each in load order |
| `LoadOrder.VisitHost` | taskmgr.cc:407-442 | the order of visits is the concatenation of the groups and progress counts every script |
| `LoadOrder.VisitsAll` | taskmgr.cc:407-442 | every loaded script is visited exactly once |
| `LoadOrder.CategoryStable` | taskmgr.cc:527-531 | grouping keeps the load order within a category |
| `LoadOrder.VisitedBefore` | taskmgr.cc:407-442 | a script of a smaller category, or of the same and loaded earlier, is visited earlier |
| `LoadOrder.DependencyFirst` | taskmgr.cc:407-569 | **Main.** a dependency that does not depend back and has no later category is visited first |
| `LoadOrder.ChainFirst` | taskmgr.cc:536-569 | indirect dependencies are loaded first along every chain on which none depends back |
| `LoadOrder.CycleFirst` | taskmgr.cc:536-569 | **Main.** on every graph: a script that f depends on, however indirectly, and that does not depend on f is loaded before the last script of the cycle f is on, which is f itself when f is on none |
| `Fork.ForkedValue.PrepareForNextScriptExecute` | modules/openvas/ovacontext.hpp:47 | raises the mixed-radix value by exactly one, or fails at the last combination and changes nothing |
| `Fork.ForkedValue.UpdateValue` | modules/openvas/ovacontext.hpp:32-45 | the carry from digit i down to digit 0 |
| `Fork.ForkedValue.GetItemPos` | modules/openvas/ovacontext.hpp:24-31 | the current index of a forked key, -1 for others |
| `Fork.ForkedValue.IsNameExist` | modules/openvas/ovacontext.hpp:15-22 | whether the key is forked |
| `Fork.OvaContext.GetKbItem` | modules/openvas/ovacontext.cc:88-102 | a first read of a key with several items registers it once with their number and gives the first item; in a forked run a registered key gives the item of the snapshot at its current index, any other key its last item; a key that is not there gives nothing |
| `Fork.OvaContext.RunForks` | taskmgr.cc:424-436 | run k has rank k, for all k below the product of the item counts; so the runs read every tuple of items of the forked keys, and nothing else |
| `Fork.EachCombinationOnce` | taskmgr.cc:424-436 | **Main.** every combination is run exactly once, in lexicographic order |
| `Fork.CombinationsRead` | modules/openvas/support/scriptstorage.hpp:17-25 | **Main.** every tuple of items of the forked keys is read by some run, and every run reads such a tuple; no two runs read the same one if no key holds an item twice |
| `Fork.RankOrders` | modules/openvas/ovacontext.hpp:32-47 | ranks order the combinations lexicographically and tell them apart |
| `Fork.RankBound` | modules/openvas/ovacontext.hpp:32-47 | ranks lie below the product |
| `Varint.EncodeInto` | engine/varint.hpp:4-14 | writes the unsigned LEB128 form (section 7.6 of DWARF 5) and its length, -1 exactly for negative numbers |
| `Varint.FitsNine` | engine/varint.hpp:4-14 | nine bytes hold exactly the numbers below 2^63 |
| `Varint.EncodedLength` | engine/varint.hpp:4-14 | k bytes hold exactly the numbers below 2^(7k) |
| `Varint.MinimalLength` | engine/varint.hpp:4-28 | no shorter byte string decodes to the same number |
| `Varint.DecodeInverts` | engine/varint.hpp:16-28 | decoding inverts encoding and leaves what follows unread |
| `FormatRules.EncodeIsLeb128` | engine/varint.hpp:4-14 | **Main.** a byte string is the encoding of n if and only if it is the unsigned LEB128 form: seven bits a byte, the low ones first, the high bit on all but the last, no byte too many |
| `FormatRules.DecodeStops` | engine/varint.hpp:16-28 | decoding any bytes takes the number up to the first byte below 128, if it is among the first nine |
| `FormatRules.DecodeRefuses` | engine/varint.hpp:16-28 | nine bytes from 128 up are refused, and so is a number cut short by the end; nothing at all reads as zero |
| `Varint.InStream.DecodeNext` | engine/varint.hpp:16-28 | the loop with shifts and ors computes the decoding, at the end of the stream too |
| `Images.BuiltSound` | engine/script.hpp:390-480 | **Main.** every script a builder makes from its own instructions has no dangling reference and a constant counter no higher than the instruction counter |
| `Images.ApplyKeepsSound` | engine/script.hpp:390-480 | each builder call keeps that |
| `Images.StepMeans` | engine/script.hpp:390-480 | what each builder call puts into the tables, under which key |
| `Images.GroupLists` | engine/script.hpp:398-402 | **Main.** appending n elements to a group lists them in the order given, behind what it held, and changes nothing else |
| `Images.RelocatedMeans` | engine/script.hpp:355-376 | every key and every reference to an instruction moves by the base, the reference of a constant by the constant base, nothing else |
| `Images.RereadSound` | engine/script.hpp:564-566 | the counters a reader guesses from the table sizes are high enough |
| `Images.KeysAscend` | engine/script.hpp:534-540 | tables are listed in ascending key order |
| `Images.ListingAll` | engine/script.hpp:553-563 | putting all listed lines into an empty table gives the table back |
| `ScriptStream.ImageInverts` | engine/script.hpp:525-567 | **Main.** reading what was written rebuilds name, entry, instruction table and constant table, with any bytes behind it left unread |
| `ScriptStream.InstructionInverts` | engine/script.hpp:210-233 | an instruction reads back |
| `ScriptStream.ConstInverts` | engine/script.hpp:569-617 | a constant reads back |
| `ScriptStream.EntriesInvert` | engine/script.hpp:553-563 | a table reads back, entry by entry, on top of what was there |
| `ScriptStream.TextInverts` | engine/script.hpp:167-171 | a text reads back |
| `FormatRules.InstructionForm` | engine/script.hpp:210-219 | the bytes of an instruction: operation code, key, length and bytes of the name, number of references, references |
| `FormatRules.ConstForm` | engine/script.hpp:569-591 | the bytes of a constant: its kind, 1 to 4, and its payload |
| `FormatRules.TablesForm` | engine/script.hpp:534-540 | the bytes of the tables: instructions in ascending order of their keys, constants likewise, each behind its key |
| `FormatRules.ImageForm` | engine/script.hpp:525-541 | the bytes of a script: entry key, length and bytes of the name, the sizes of the tables, the tables |
| `FormatRules.ReadsBack` | engine/script.hpp:543-567 | reading a written script gives name, entry key and both tables, not relocated |
| `Scripts.Script.constructor` | engine/script.hpp:325-333 | a new script holds the null instruction only |
| `Scripts.Script.NewInstruction` | engine/script.hpp:404-439 | appends an instruction under the next key |
| `Scripts.Script.MakeConst` | engine/script.hpp:441-480 | appends a constant and the instruction that names it |
| `Scripts.Script.AddToGroup` | engine/script.hpp:398-402 | appends one reference to a group, behind the others (`GroupLists`) |
| `Scripts.Script.RelocateInstruction` | engine/script.hpp:355-376 | moves every key and reference by the bases, in place, once; a second call is refused and changes nothing; asked for is what the two assertions ask for |
| `Scripts.Script.WriteToStream` | engine/script.hpp:525-541 | succeeds exactly when no integer constant is negative, and then appends the image |
| `Scripts.Script.ReadFromStream` | engine/script.hpp:543-567 | reads exactly what the parse of the bytes says, success or not |
| `Scripts.WriteInstruction` | engine/script.hpp:210-219 | appends the instruction form |
| `Scripts.ReadInstruction` | engine/script.hpp:221-233 | reads what the parse says |
| `Scripts.WriteConst` | engine/script.hpp:569-591 | fails exactly for a negative integer |
| `Scripts.ReadConst` | engine/script.hpp:593-617 | reads what the parse says, unknown kinds fail |
| `Scripts.WriteNum` | engine/script.hpp:109-161 | appends the number, refused when negative |
| `Scripts.ReadText` | engine/script.hpp:188-200 | reads what the parse says |
| `KeyResolution.RelocationKeepsTrees` | engine/vm.cc:244-299 | **Main.** in an executor whose scripts are told apart by their keys every instruction of every script stands for the same tree of instructions and constants, to any depth, as in the script alone before relocation |
| `KeyResolution.KeyResolves` | engine/vm.cc:244-260 | a key of a loaded script resolves to its instruction |
| `KeyResolution.ResolvesClaimed` | engine/vm.cc:244-260 | whatever is held: a key resolves to an entry of a script that claims it, and to nothing when no script claims it |
| `KeyResolution.RefsResolve` | engine/vm.cc:262-281 | all references of an instruction resolve in the script the first one names |
| `KeyResolution.ConstResolves` | engine/vm.cc:283-299 | the constant of a moved instruction is the one it had |
| `KeyResolution.WholeTreesKnown` | engine/script.hpp:482-504 | a built script has no unknown part at any depth |
| `ScriptLoading.LoadedScriptsResolve` | engine/vm.cc:166-196 | **Main.** after any sequence of loads and resets by any number of executors sharing one cache, each of them tells its scripts apart and resolves every reference as before relocation |
| `ScriptLoading.RunOk` | engine/vm.cc:166-196 | key ranges and constant ranges of private and of cached scripts stay pairwise disjoint over every run |
| `ScriptLoading.ShareOk` | taskmgr.hpp:69-90 | a newly cached script gets ranges of its own; that one base serves both needs the order of its counters |
| `ScriptLoading.ConstantsCollide` | taskmgr.hpp:79-81 | exactly when the constants of two scripts cached in a row would share keys, since the constant base reuses the instruction base |
| `ScriptLoading.PlaceOk` | engine/vm.cc:189-194 | a private script goes behind the last one in both ranges |
| `ScriptLoading.LoadHolds` | engine/vm.cc:166-196 | a load adds the script it returns and drops none |
| `ScriptLoading.LoadPlaces` | engine/vm.cc:166-196 | where a script goes: cached ones to the next key of the cache, later private ones to the next multiples of 1000 above the one before |
| `LoadHistory.LoadMeans` | engine/vm.cc:166-196 | **Main.** a load returns the cached script of that name if it may use the cache and there is one, else what the loader found, which the executor then holds; nothing exactly when neither has it |
| `LoadHistory.CacheGrows` | taskmgr.hpp:69-90 | a load changes the cache only by one script under one of the five kept names that was not cached |
| `LoadHistory.HoldsReturned` | engine/vm.cc:166-196 | **Main.** after any run of loads and resets an executor holds exactly the scripts its loads returned since it was last reset |
| `LoadHistory.NamedOverRun` | taskmgr.hpp:69-101 | over every run each cached script has the name it is cached under |
| `LoadHistory.LoadedAgain` | taskmgr.hpp:69-101 | **Main.** a kept script, loaded once through the cache, is what every later load of that name through the cache returns, to whatever executor |
| `LoadHistory.ReturnedIsFound` | engine/vm.cc:166-196 | what a load of a run returns was found by it or has, in the cache, the name asked for |
| `Loader.ScriptCache.OnNewScript` | taskmgr.hpp:69-90 | takes known names that are not cached yet, moves the script and the next key |
| `Loader.LoadedScripts.LoadScript` | engine/vm.cc:166-196 | the objects after a load are those of the model: cached, newly cached or private; a name in the cache returns the cached object, any other the one that was found |
| `Loader.LoadedScripts.AddPrivate` | engine/vm.cc:189-194 | the first private script stays where it is |
| `Loader.LoadedScripts.GetInstruction` | engine/vm.cc:244-260 | computes the resolution of one key |
| `Loader.LoadedScripts.GetInstructions` | engine/vm.cc:262-281 | computes the resolution of several keys |
| `Loader.LoadedScripts.GetConstValue` | engine/vm.cc:283-299 | computes the resolution of a constant key |
| `Archive.ReopenedScripts` | codecache.hpp:16-24 | **Main.** after offering any scripts in any order, refused ones included, and closing, the reopened archive has the written index, loading a name gives the first script of that name that could be written, and nothing when none could |
| `Archive.RunStored` | codecache.hpp:16-24 | after any sequence of offers, each as OnNewScript answers it, the archive is the one that stores the writable scripts in order |
| `Archive.ReopenedArchive` | blockfile.hpp:54-161 | the same for any named contents; blocks start where the one before ends and cover the file |
| `Archive.IndexReloads` | blockfile.hpp:67-93 | the index file reads back to its end with all entries if and only if no entry looks like the end mark |
| `Archive.IndexConsumes` | blockfile.hpp:79-93 | at the end of the file an end mark is read, so the loop over the index ends |
| `FormatRules.IndexForm` | blockfile.hpp:54-65 | the bytes of an index entry: offset, size, checksum, length and bytes of the name |
| `FormatRules.IndexFileForm` | blockfile.hpp:67-78 | the bytes of the index file: the entries, and four zeros |
| `Archive.StoreAllHolds` | blockfile.hpp:122-135 | the archive holds under each name the content first stored, at its offset |
| `Archive.ScriptsNotZero` | codecache.hpp:16-24 | no script is mistaken for the end mark, whatever its name |
| `BlockFiles.BlockFile.Write` | blockfile.hpp:122-135 | appends the block and its entry |
| `BlockFiles.BlockFile.Close` | blockfile.hpp:67-78 | writes each entry of the table once, then the end mark |
| `BlockFiles.BlockFile.LoadIndexFile` | blockfile.hpp:79-93 | the loop reads what the parse of the index says |
| `BlockFiles.BlockFile.NewReader` | blockfile.hpp:138-150 | a reader exactly when the index is not empty |
| `BlockFiles.BlockFile.Read` | blockfile.hpp:109-121 | the bytes of the named block |
| `BlockFiles.BlockFile.LoadScript` | engine/vm.cc:77-91 | a named block is read into a fresh script, an empty block is an error |
| `BlockFiles.CodeCacheWriter.OnNewScript` | codecache.hpp:16-24 | stores a script once per name; refused exactly when the name is new and the script cannot be written, and then nothing is stored; otherwise it is offered to the cache |
| `HostScan.ScanCoversEveryPair` | thirdpart/masscan/hostscan.c:734-857 | **Main.** with the shuffle of the scan, for every rate, seed and sides: each (address, port) pair is probed once, or twice exactly when the step it is unshuffled to is among as many as there are IPv6 pairs |
| `HostScan.EveryPairCovered` | thirdpart/masscan/hostscan.c:734-857 | the same for any permutation in its place |
| `HostScan.ScanOnceExactlyWithoutIpv6` | thirdpart/masscan/hostscan.c:352-357 | **Main.** with the shuffle of the scan every pair is probed exactly once if and only if there is no IPv6 target |
| `HostScan.OnceExactlyWithoutIpv6` | thirdpart/masscan/hostscan.c:352-357 | the same for any permutation in its place |
| `HostScan.ShuffleShuffles` | thirdpart/masscan/rand-blackrock.c:267-291 | the shuffle of the scan permutes its range |
| `HostScan.PassCovers` | thirdpart/masscan/hostscan.c:734-857 | the probes of a complete pass hold every pair once or twice, and once without IPv6 targets |
| `HostScan.AllPicksInBounds` | thirdpart/masscan/hostscan.c:788-821 | address and port indices are in bounds |
| `HostScan.PickedWhen` | thirdpart/masscan/hostscan.c:781-821 | the steps at which a pair is probed: its home step and a full range later |
| `HostScan.PickedIs` | thirdpart/masscan/hostscan.c:781-821 | which pair a step probes, in plain numbers: the step plus the rate, modulo the range, shuffled; IPv6 pairs come first, and addresses vary fastest |
| `HostScan.SendThread` | thirdpart/masscan/hostscan.c:700-857 | sets up the shuffle with fourteen rounds; whatever the batch sizes, the probes are those of the first steps in order, up to the whole pass, which then covers every pair |
| `HostScan.Reduce` | thirdpart/masscan/hostscan.c:781-786 | division and repeated subtraction reduce the shifted index alike |
| `Url.UnescapeInverts` | modules/http.cc:379-469 | **Main.** in each of the seven modes unescaping gives back an escaped string if and only if each of its bytes survives that mode |
| `Url.UnescapeInvertsAll` | modules/http.cc:379-469 | in all modes but host and zone every string comes back |
| `Url.QueryAlphabet` | modules/http.cc:340-377 | an escaped query holds only letters, digits, `-_.~`, percent and plus (section 2.3 of RFC 3986) |
| `Url.PathAlphabet` | modules/http.cc:340-377 | an escaped path holds no question mark, number sign, blank or non-ASCII byte |
| `Url.HostLosesSlash` | modules/http.cc:431-433 | in a host an escaped slash is refused |
| `Url.QueryInverts` | modules/http.cc:471-495 | **Main.** parsing an encoded query gives back all pairs in order |
| `Url.QuerySplits` | engine/value.cc:18-36 | splitting a query at ampersands gives the texts of its pairs |
| `Url.Escape` | modules/http.cc:379-419 | the three paths compute the byte-wise escape |
| `Url.Unescape` | modules/http.cc:421-469 | the check and the copying loop compute the unescape, or fail; `AnyCaseUnescapes`, `HostEscapes`, `ZoneEscapes`, `PlainByte` and `BadEscapeRefused` say what that is for any text |
| `Url.QueryEncode` | modules/http.cc:597-610 | pairs joined by ampersands |
| `Url.ParserQuerys` | modules/http.cc:471-495 | computes the parse, a semicolon fails |
| `Url.SplitText` | engine/value.cc:18-36 | the parts, a trailing empty one left out |
| `UrlRules.AnyCaseUnescapes` | modules/http.cc:314-338 | **Main.** in the modes other than host and zone an escape stands for its byte, whatever the case of its two digits, and the rest is unescaped |
| `UrlRules.HostEscapes` | modules/http.cc:431-433 | in a host a percent sign and bytes from 0x80 up may be escaped, all others are refused |
| `UrlRules.ZoneEscapes` | modules/http.cc:434-439 | in a zone a percent sign, a blank, and what a host leaves as it is |
| `UrlRules.BadEscapeRefused` | modules/http.cc:426-430 | a percent sign without two hexadecimal digits behind it is refused, in every mode |
| `UrlRules.PlainByte` | modules/http.cc:441-467 | any other byte stands for itself, a plus sign in a query for a blank; hosts and zones refuse the bytes they escape |
| `UrlRules.CaseIgnored` | modules/http.cc:421-469 | two texts that differ only in the case of the digits of their escapes unescape alike, in every mode |
| `UrlRules.LeftAsIs` | modules/http.cc:340-377 | **Main.** for each mode exactly which bytes are left as they are: letters, digits, and the marks of the mode, listed |
| `UrlRules.EscapesEach` | modules/http.cc:379-419 | escaping goes byte by byte: a blank in a query is a plus sign, a byte that is left is itself, any other a percent sign and two upper-case digits |
| `UrlRules.SplitMeans` | engine/value.cc:18-36 | splitting gives the parts between the separators, all of them in order; nothing behind a separator at the end |
| `UrlRules.PairMeans` | modules/http.cc:478-491 | a part is split at its first equals sign; without one, or when a side does not unescape, it is dropped |
| `UrlRules.ParseMeans` | modules/http.cc:471-495 | **Main.** for every query: parsing fails exactly when it has a semicolon, and else gives the pairs of its parts in order |
| `Base64.EncodeStream` | modules/base64.cc:19-47 | the 32-bit accumulator computes the RFC 4648 (section 4) text; the empty string fails the assertion on the length |
| `Base64.EncodeBlocks` | thirdpart/masscan/crypto-base64.c:10-62 | writes the same text, cut to whole blocks when the buffer is too small |
| `Base64.FittingBlocks` | thirdpart/masscan/crypto-base64.c:22-24 | cut to as many blocks of four as there is room for |
| `Base64.StreamIsBlocks` | modules/base64.cc:31-43 | **Main.** emitting bits and encoding blocks of three bytes give the same text, but for the padding |
| `Base64.DecodeStream` | modules/base64.cc:49-73 | the accumulator computes the decoding; nothing for a text with a foreign character |
| `Base64.UnstreamInverts` | modules/base64.cc:49-73 | **Main.** the accumulator decoder inverts the encoders on every string |
| `Base64.WhiteSpaceIgnored` | modules/base64.cc:58-61 | inserting white space or padding anywhere changes nothing, in any text |
| `Base64.DecodeBlocks` | thirdpart/masscan/crypto-base64.c:67-160 | computes the decoding by blocks, cut to the buffer, or reports that it does not return |
| `Base64.StuckExactly` | thirdpart/masscan/crypto-base64.c:111-155 | **Main.** for every text: the block decoder does not return if and only if some character that is neither a digit nor padding stands behind two or three digits of a block, with no padding in such a place before it |
| `Base64.BlocksInvert` | thirdpart/masscan/crypto-base64.c:67-160 | **Main.** the block decoder inverts the encoders on every string |
| `Base64.InsertExactly` | thirdpart/masscan/crypto-base64.c:111-155 | **Main.** a character that is neither a digit nor padding, put anywhere into an encoded text: the block decoder gives the string back, or does not return exactly behind the second digit of a block and behind a third digit |
| `Base64.WhiteSpaceSticks` | thirdpart/masscan/crypto-base64.c:111-155 | white space anywhere in an encoded text: the accumulator decoder always gives the string back, the block decoder exactly where it does not stick |
| `Base64Rules.DigitIsLetter` | thirdpart/masscan/crypto-base64.c:16-23 | digits and letters correspond as in the alphabet of RFC 4648 (section 4), in both directions |
| `Base64Rules.ThreeEncode` | thirdpart/masscan/crypto-base64.c:10-62 | three bytes make four letters whose digits to the base 64 are the number of the bytes to the base 256 |
| `Base64Rules.TwoEncode` | thirdpart/masscan/crypto-base64.c:10-62 | two bytes at the end make three letters and a pad |
| `Base64Rules.OneEncode` | thirdpart/masscan/crypto-base64.c:10-62 | one byte makes two letters and two pads |
| `Base64Rules.TestVectors` | modules/base64.cc:19-47 | the texts of RFC 4648 (section 10) for f, fo, foo and foobar |
| `Base64Rules.FourUnstream` | modules/base64.cc:49-73 | the accumulator decoder on any four letters in front of any text: the three bytes of their number, and what the text gives |
| `Base64Rules.FourDecode` | thirdpart/masscan/crypto-base64.c:67-160 | the block decoder likewise |
| `Base64Rules.TwoDecode` | thirdpart/masscan/crypto-base64.c:67-160 | any two letters and two pads at the end: one byte with either decoder, four bits dropped |
| `Base64Rules.ThreeDecode` | thirdpart/masscan/crypto-base64.c:67-160 | any three letters and a pad: two bytes with either decoder |
| `Base64Rules.RefusedExactly` | modules/base64.cc:49-73 | **Main.** the accumulator decoder refuses exactly the texts with a character that is no letter, pad or white space |

## Left out

- `exit` and its flag bit are not modelled.
- Objects and methods of objects, arrays, maps, slices, paths, for-in and the exception branch of `typeof`: they would add cases to the expressions without touching the flags. Array `+` shares the object it changes, so `+` is taken on values.
- The operators, conversions and builtin methods are parameters of every interpreter theorem (`Prims`); builtin methods that change contexts are not modelled. Which operator a compound assignment applies is not modelled: `update` is a parameter too.
- Timeouts of scripts, warnings, logging and the pointer to the current context.
- The values of statements, other than of a condition: nothing reads them.
- Fuel: the interpreter functions carry a bound on the depth of loops and calls; a program that needs more at every bound does not end in the model. `Fuel` proves that any two sufficient bounds agree.
- SetVarValue: the search and the write are two methods here, one loop in the source.
- BlackRock and BlackRock-2: the S-box contents are parameters, and the theorems hold for all of them; only `SourceRoundTripsExactly` uses two entries of SB7 (thirdpart/masscan/crypto-blackrock2.c:143). A shift by 64 or more has no meaning in C, so the two round functions are defined for rounds below 64. Round counts of BlackRock-2 are bounded below 2^32 - 2, where the counter would wrap.
- The floating square root is a parameter: any number for BlackRock-2, any number within one of the root for BlackRock.
- BlackRock: ranges stay below 2^64 - 2^34, where the product of the sides could wrap around; an empty range, on which the initialization does not return, is excluded by the caller.
- Timeouts: 64-bit tick overflow, and the offset from an entry to the record that holds it.
- Instruction objects are values in the script's table here; references between them are keys in the source as well.
- The entry point of a script that has none yet is taken to be the null instruction; the source would fail when it is used.
- Scripts.Script.ReadFromStream: a stored entry key that is not in the table is a failure here, where the source goes on with a null pointer; a text or float cut short by the end of the stream is a failure as well.
- Scripts.ReadText: a text cut short by the end of the stream is a failure here, where its contents are unspecified in the source.
- Scripts.ReadConst: likewise for a text or a float; floats are their eight bytes.
- 32-bit keys: private keys stay below the shared base and shared ones below 2^32, as a hypothesis of the loading theorems (`Room`).
- The script loader that parses source text: the grammar files are not part of this model; a loaded script is an argument.
- The order of entries in the index file: the proof holds for every order. Failing file operations, sizes over 2 GB and checksums, which the source leaves at zero.
- InitScripts: script preferences, the position numbers kept for loaded names and what is thinned out of the records. CheckScript and early exit: the pass over a host is the complete one.
- Fork: the snapshot of the storage is the storage itself; keys registered by runs after the first are not modelled, as the source reads them from the snapshot.
- SendThread: batch sizes are a list; packets, cookies and the throttle are left out. Index sums stay below 2^64.
- Url: a char is taken to be signed, so a raw byte from 0x80 up is rejected in hosts and zones; the standard it follows (section 2.1 of RFC 3986) speaks of bytes.
- QueryEncode: the map is given as the list of its entries in iteration order.
- Base64: behaviour of `isspace` on negative values, and the read one past the end of the text, which does not influence the result.
- JSON text escaping, single-byte runes, the stream search and the virtual file system are not modelled; nor are the network, TLS, databases and the HTTP server; hex codec, preference getters, path joins and port grouping, which would add easy members.

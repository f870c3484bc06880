# KGTP: trace frame stores and agent expressions, verified

KGTP is a kernel tracer. A tracepoint runs agent expressions and collects registers, memory and trace
state variables into trace frames; GDB reads the frames back over the remote protocol, from a trace file
or through a pipe. This project models the parts of it where the difficulty lies, and proves what they
are for.

- **The lockless per-CPU ring buffer** (`ring_buffer.c`), in three models. `LocklessRing` is one writer
  against one reader on another CPU, each step one access to shared memory, under every interleaving;
  `LocklessScan` is the reader's search for the head page in it.
  `NestedCommit` is any stack of writers that interrupt each other anywhere in reserve, commit and discard, and
  `NestedProgress` what such a writer gets done when it is left alone.
  `EventFifo` is the buffer as a bounded queue with its real page arithmetic, as a class whose fields are
  changed in place.
- **Agent expressions** (`gtp.c`). `AgentCode` is the bytecode of the GDB manual's appendix "The GDB Agent
  Expression Mechanism"; `AgentCheck` the two checkers that walk and rewrite it in place, and `AgentTrail` the
  stretches of code that the second one walks; `AgentMachine` and `AgentInterpreter` the stack machine with its
  cached top, as a step function and as the loop over an array; `AgentArithmetic` and `AgentMeaning` what each
  opcode does, in numbers and bits; `AgentRuns` what acceptance by a checker means for every run.
- **The page ring** (`gtp_rb.c`). `PageRing` has the pages linked through words inside the pages, and what
  each operation does to the entries held; `PageRuns` the object with its fields, building and freeing the
  ring, and every run of its operations; `PageWalk` the cursor over entries.  `FrameOrder` is what one CPU's
  writer keeps about the order of frame ids, and `TraceRuns` any number of CPUs that take their ids from one
  counter, in every run.
- **The users of the page ring** (`gtp.c`). `FrameRead` merges the CPUs' frames and seeks by number;
  `FrameCollect` collects frames and reads memory back; `FrameTrip` is the whole way from collection on one of
  the CPUs to the `m` packet; `FrameBack` steps in reverse. `Delivery` is what a CPU has still to deliver through
  the pipe, `FrameJobs` its writer, which holds the ring's lock for a whole frame, and `FramePipe` drains frames
  while pages leave and re-enter the rings and the writers go on. `FrameMeaning` says of the entries alone what the
  frames delivered and exported are. `FrameFile` is the trace file format of the GDB manual, written and read again,
  `FrameShown` what a reader finds in a frame of it, and `FrameExport` writes the frames of all CPUs to it, walking
  the rings.
- **The circular byte arena** (`gtp.c`, built with `GTP_FRAME_SIMPLE`). `ByteArena`.

`Options` has the datatype for a pointer that may be NULL, `Division` facts about division with remainder.

## Results

*Ring buffer.* Under every interleaving of single accesses the next links of the pages form one cycle that
leaves out exactly the held page, HEAD is on exactly one link except between the writer's first two
cmpxchgs, UPDATE is on the tail page's link exactly from the first to the third, and a swap takes only the
page under HEAD. That the reader never takes a page the writer still fills is true only under a
condition, which is given exactly: `rb_is_reader_page` loads two words, and a reader that consumes a page
between the loads misleads the writer, unless the buffer has three pages and does not overwrite. Another
finding: `rb_set_head_page` gives up after three laps with NULL, which its caller dereferences, and a writer can
lead the reader around three times exactly if the buffer overwrites. With
nested writers no event can be read before its own commit or discard has begun, and the outermost return from
`rb_end_commit` leaves nothing uncommitted; a writer that nobody interrupts gets its event wherever there is room
for it, moving the tail if it must, or its room is free again if it discards it, and comes to its end. As a queue, events come out in the order of their commits; only
overwrite mode loses any, then whole oldest pages; the counters are exact. A reservation succeeds at the
first attempt that fits, whatever the clock asks for at each, and the pages it costs are given exactly. One
finding: data of 4065 to 4072 bytes is admitted by the size test, but with a time extension it fits no page:
the reservation fails if every attempt needs one, and in overwrite mode its attempts have by then overwritten
every page before the commit page.

*Agent expressions.* Both checkers end on every byte string; the simple one accepts exactly the code whose
every path has the depths it needs. Its depth ignores that `if_goto` pops; so accepted code can still pop
below the stack (a four-instruction example is given). The code that cannot on any choice of branches is
characterised exactly, and so are the runs that do: a run faults if and only if the branches it took pop below
the array. On accepted code, depth counted = depth at run time + `if_goto`s executed, no push leaves the array, and every
run ends. The rewritten code, run by array position, behaves as the original by variable number. Code the loop
check accepted never leaves the code or the stack array in any run of any length. It accepts exactly the code in
which all that control can reach is an instruction it allows and no two sides of jumps come over the same popping
instruction: one more finding, since the walk does not know an opcode it has rewritten, so that code whose branches
join at a `pop` is refused. What every opcode computes is stated bit by bit and by signed and unsigned value.

*Page ring.* Every operation sequence keeps the links inverse on one cycle, loses no page and keeps the
entries tiling their pages; `gtp_rb_walk` ends and never meets an unknown record. Over every run of any number
of CPUs that begin frames, write records, release room and reset, circular at some turns and not at others, ids
increase on each ring and none is on two; so after any run the reader and the stopped pipe each give every frame of
every CPU once, in increasing id, the pipe and the exported file with all records, which are exactly the registers,
memory blocks and variables between a head and the next; the file gives the CPU of each frame. While the writers go on the
pipe still delivers every frame of a CPU once, in order and whole, those that were there and those written
meanwhile, whenever the writers get the lock. The exported file reads back exactly if no tracepoint's number is 0
in 16 bits, which ends the file for its reader. Seeking is indexing; memory collected on one CPU, among other
records, and read through the `m` packet after frames of any CPU have followed, is the memory that was traced. In the byte arena the condition under which `gtp_frame_alloc` never returns is exact; a frame head of
28 bytes followed by a request for the whole arena meets it, and entries of at most half the arena never do.

How to check: `dafny verify dfyconfig.toml`. Methods that change state carry their whole effect in
`ensures`; the lemmas say what those effects mean over runs.

## Model

| member | source | states |
|---|---|---|
| LocklessRing.OneRingOneHead | ring_buffer.c:1702-1850 | after any run, whatever the interleaving: one cycle of exactly n pages without the held page, no warning branch of the writer taken and the reader's sanity check never failed, HEAD on exactly one in-ring link except between the first two cmpxchgs, UPDATE on the tail page's link exactly from the first to the third |
| LocklessRing.StepKeepsInv | ring_buffer.c:2929-3050 | every single access of writer or reader keeps the cycle, the back links but for the one the reader owes, and the flags |
| LocklessRing.WriterKeepsInv | ring_buffer.c:1941-2043 | every step of the head push, the tail move and the commit loop keeps that invariant, with the cycle turned by one page when HEAD moves on |
| LocklessRing.ReaderKeepsInv | ring_buffer.c:822-866 | every step of finding the head, splicing, swapping and linking the new page keeps it, with the private page taking the head's place |
| LocklessRing.InitInv | ring_buffer.c:1064-1130 | the buffer as allocated satisfies the invariant |
| LocklessRing.SwapTakesTheHead | ring_buffer.c:868-881 | in any run a step changes the held page only if it is the reader's cmpxchg and the link before the page it gets carries HEAD |
| LocklessRing.StepKeepsOrder | ring_buffer.c:1941-2043 | in a sound configuration each step keeps the commit page at or before the tail page in ring order, and the reader's page behind both |
| LocklessRing.ReaderPageIsQuiet | ring_buffer.c:1974-2018 | in a sound configuration no run ever gives the reader a private page that the writer still fills beyond the commit page |
| LocklessRing.MisledWriter | ring_buffer.c:713-718 | with three pages or more, overwriting, and the reader page test done as two loads, a run exists in which the reader holds a page the writer still fills |
| LocklessRing.MisledWithTwoPages | ring_buffer.c:713-718 | with two pages and the test as two loads such a run exists in either mode |
| LocklessRing.QuietExactlyWhenSound | ring_buffer.c:713-718 | the reader's page is quiet in every run if and only if the test reads both words at once, or there are three pages or more and no overwriting |
| LocklessRing.SpliceIsOneAccess | ring_buffer.c:2977-2993 | the stores that prepare the reader's page may come apart: with only some of them done the writer's next access does the same and sees the same links |
| LocklessRing.SpliceReadsStay | ring_buffer.c:2977-2993 | no access of the writer changes the links the splice reads |
| LocklessScan.LostExactlyWhenOverwriting | ring_buffer.c:822-866 | no run makes rb_set_head_page give up with NULL if and only if the buffer does not overwrite, for every number of pages and either grain of the reader page test |
| LocklessScan.ScanFinds | ring_buffer.c:845-860 | without overwriting the scan meets the head before it comes back to where it began, whatever the writer does |
| LocklessScan.LedAround | ring_buffer.c:853-865 | with overwriting a run in which the writer moves HEAD on each time the reader is about to look at it, through all three laps |
| NestedCommit.DoKeepsInv | ring_buffer.c:2045-2166 | any step of the top writer, or a new interrupt, keeps the invariant of the whole stack: page tiling, overflowing additions stacked above the page end, what each interrupted writer relies on (that writers get on: NestedProgress) |
| NestedCommit.NothingHalfWrittenIsReadable | ring_buffer.c:2130-2166 | in every run an event whose commit or discard has not begun lies at or above the commit index of its page and inside the page, and events of different writers do not overlap |
| NestedCommit.LastOneOutCatchesUp | ring_buffer.c:1559-1610 | a return from rb_end_commit that leaves committing at 0 leaves the commit page equal to the tail page and its commit equal to its write |
| NestedCommit.QuietBufferIsReadable | ring_buffer.c:1559-1610 | with no writer active the events of the commit page tile it from its start and all lie below its commit index |
| NestedCommit.NoEventIsLost | ring_buffer.c:2094-2128 | one step leaves a page's events alone, appends the one just reserved, or takes back the last one, and only the writer that owns it does |
| NestedCommit.CommitPageIsLeftComplete | ring_buffer.c:1573-1589 | the commit page is left only when all its events are readable |
| NestedCommit.CutStep | ring_buffer.c:2094-2128 | taking an event back by cmpxchg keeps the invariant: nobody's event lies behind it |
| NestedCommit.ResetStep | ring_buffer.c:1869-1936 | rb_reset_tail pads the page or takes the addition back so that no other addition slips in |
| NestedProgress.ReserveAlone | ring_buffer.c:2094-2166 | in every run a writer that nobody interrupts, with room on the tail page or a next page that is not the commit page, comes to hold its event: on the tail page, or at offset 0 of the next page, cleared, with tail on it and the old page full |
| NestedProgress.WriterAlone | ring_buffer.c:2130-2257 | such a writer comes to its end, the writers below it untouched; its event is on its page or, discarded, write index and events are as before; if it was the only one, everything written is readable |
| NestedProgress.QuietWriter | ring_buffer.c:2396-2425 | with no writer active there is always room: the event is in the page's log at the offset it should have, and readable when the writer returns |
| NestedProgress.SoloMoves | ring_buffer.c:1946-2021 | the nine steps that move the tail and come back to the addition, with the next page emptied |
| NestedProgress.SoloGivesUp | ring_buffer.c:1960-2036 | refused or with the commit page ahead the writer has no event and the page ends full; told to retry it reads the tail again |
| NestedProgress.SoloDiscards | ring_buffer.c:2094-2128 | discarding the newest event restores the write index and the log of its page |
| NestedProgress.SoloKeeps | ring_buffer.c:2094-2128 | any other event stays where it is when it is discarded |
| NestedProgress.SoloCommits | ring_buffer.c:1559-1610 | the outermost rb_end_commit ends, over as many pages as it takes, with the commit page at the tail page and everything written from the old commit page on readable |
| EventFifo.LengthRoundTrip | ring_buffer.c:1848-1866 | the event length the writer computes is the least multiple of 4, and at least the smallest event, whose payload holds the data; the reader finds it, and the bounds for data with and without a time extension are exact |
| EventFifo.CpuBuffer.Reserve | ring_buffer.c:2045-2092 | succeeds at the first attempt whose length, with a time extension or not as the clock asks at that attempt, fits the page it finds, and fails when none of those allowed does; the queue loses only a run of whole oldest pages, counted in overrun, exactly those the attempts moved the tail over; at most one if the event fits at every attempt, every page before the commit page if it fits at none |
| EventFifo.CpuBuffer.Attempt | ring_buffer.c:2168-2257 | the retry loop: the number of attempts, the first that fits, the pages given up and the length held are determined by the clock's answers, the mode and where tail and commit stand |
| EventFifo.CpuBuffer.ReserveNext | ring_buffer.c:2045-2092 | one attempt: stored if it fits the tail page, else the tail moves on to an empty page, at the cost of the oldest page when the ring is full in overwrite mode, or the ring is full |
| EventFifo.TriedWhenFits | ring_buffer.c:2168-2257 | an event that fits a page at every attempt is stored unless the ring is full without overwriting, and costs at most one page |
| EventFifo.TriedWhenNot | ring_buffer.c:2168-2257 | an event too long with a time extension needed each time is never stored and costs every page before the commit page |
| EventFifo.CpuBuffer.MoveTail | ring_buffer.c:1941-2043 | the tail moves on, or the oldest page is dropped with its entries counted, or the writer gives up, exactly when each is due |
| EventFifo.CpuBuffer.ResetTail | ring_buffer.c:1869-1936 | padding the tail page changes no event |
| EventFifo.CpuBuffer.EndCommit | ring_buffer.c:1559-1610 | every event written becomes readable in order, over as many pages as needed |
| EventFifo.CpuBuffer.Commit | ring_buffer.c:2396-2425 | the reserved event becomes the newest of the queue, nothing else changes |
| EventFifo.CpuBuffer.Discard | ring_buffer.c:2503-2538 | the queue is unchanged and the event's space is given back |
| EventFifo.CpuBuffer.GetReaderPage | ring_buffer.c:2929-3050 | a page with something to read is found unless the queue is empty; the limit on rounds is never reached |
| EventFifo.CpuBuffer.Peek | ring_buffer.c:3122-3194 | the next slot to consume, passing over a time extension; the limit on rounds is never reached |
| EventFifo.CpuBuffer.AdvanceReader | ring_buffer.c:3052-3073 | one slot leaves the front of the queue, counted as read if it is an event |
| EventFifo.CpuBuffer.Consume | ring_buffer.c:3358-3393 | returns the oldest event and removes it, or none exactly when the queue is empty |
| EventFifo.Run | ring_buffer.c:2695-2700 | after any sequence of operations: consumed and stored events together are in commit order, each once, entries minus overrun of them; without overwriting they are all events committed |
| EventFifo.HeadOff | ring_buffer.c:1702-1850 | dropping the head page keeps the buffer's shape and removes exactly that page's events, as many as its entry count |
| EventFifo.SlidQueue | ring_buffer.c:1941-2043 | what a writer loses is one contiguous piece of the queue made of whole pages right behind the reader's page |
| AgentCode.PatchKeepsFlow | gtp.c:7149-7168 | rewriting operands and opcodes in place keeps every edge of the control flow |
| AgentCode.PatchName | gtp.c:6985-7000 | storing a variable's position over its number at one more instruction is again a patch of the original |
| AgentCode.PositionFits | gtp.c:7162-7163 | the two bytes stored read back as the position exactly when it is below 65536 |
| AgentCheck.Checker.CheckVariable | gtp.c:6906-7168 | accepts exactly the allowed uses, rewrites the operand at most once per instruction, answers 2 exactly when $current is set for the first time there |
| AgentCheck.Checker.AddVar | gtp.c:6806-6867 | the list of rewritten operands grows by this one and the lock flag is set on a conflict |
| AgentCheck.LockStaysExact | gtp.c:6806-6867 | the lock is required exactly when some shared variable is both read and set by the code |
| AgentCheck.Checker.Sequence | gtp.c:7183-7779 | an instruction is let through exactly when its operands and depth are acceptable, with the depth and position after it |
| AgentCheck.Checker.CheckSimple | gtp.c:7183-7779 | ends on every byte string; accepts exactly when every path moves forward to an end, finds what it pops and stays below STACK_MAX; all reachable operands are then rewritten and the walked code is closed; a loop verdict means a backward jump with $current not set before, and code whose paths are as they should be up to a backward jump and never set $current is not refused |
| AgentCheck.Checker.CheckLoop | gtp.c:7785-8074 | ends on every byte string and accepts if and only if all instructions control can reach are among those allowed, with operands inside the code, and no two sides of jumps lead straight over the same popping instruction; then the walked instructions are closed, every popping opcode is in its checked form and every operand rewritten |
| AgentCheck.Checker.VisitJump | gtp.c:7919-7960 | a jump not listed is listed and its target is next, one listed has its fall-through next, or nothing is left of it, in each case exactly; refused only with the operand outside; the walk's measure falls |
| AgentCheck.Checker.LoopSequence | gtp.c:7785-8074 | which instruction the walk goes on to, what was marked and renamed there, and that it goes on exactly if the operand is inside the code and the variable allowed |
| AgentCheck.SpreadBound | gtp.c:7919-7960 | jumps listed are no more than bytes of code, which bounds the loop check |
| AgentCheck.LoopDone | gtp.c:8053-8062 | with no entry left to do the walked instructions are closed and ready |
| AgentTrail.TrailTurn | gtp.c:7919-7960 | at the end of a stretch the walk goes on with a side it has not been on, and the marks still lie exactly on the popping instructions passed, each passed on one side |
| AgentTrail.TrailMeets | gtp.c:8040-8046 | in code whose sides do not meet on a popping instruction the walk never comes to an opcode it has rewritten |
| AgentTrail.TrailDone | gtp.c:8053-8062 | a walk with nothing left to do shows that the sides do not meet |
| AgentTrail.JoinIsRefused | gtp.c:8040-8046 | concrete code with every instruction allowed that the loop check refuses, because both sides of an if_goto come to the same pop |
| AgentTrail.WhileIsAccepted | gtp.c:8053-8062 | a while loop whose if_goto leaves it is accepted |
| AgentRuns.CountedDepth | gtp.c:7575-7606 | along every run inside an accepted path, counted depth = real depth + if_gotos executed; pushes stay inside the array; pc moves forward |
| AgentRuns.StraightCode | gtp.c:4864-4872 | every run of accepted code is over within size iterations and can fault only after an if_goto |
| AgentRuns.NoFault | gtp.c:4489-5062 | if paths also succeed with if_goto counted as a pop, no run faults |
| AgentRuns.AcceptedCodeCanFault | gtp.c:7575-7606 | a concrete program the simple check accepts whose run pops below the array |
| AgentRuns.PoppedExactly | gtp.c:7575-7606 | among accepted code, counting if_goto as a pop succeeds if and only if no choice of branches, taken or possible, pops below the array |
| AgentRuns.RunTakesPath | gtp.c:4864-4872 | a run of accepted code that faults took branches that pop below the array, and one that reaches end took branches that do not |
| AgentRuns.FaultExactly | gtp.c:4864-4872 | every run of accepted code is over within size iterations; one that reaches end or faults does fault if and only if the branches it took pop below the array, and then the count with if_goto as a pop had failed |
| AgentRuns.RenamingKeepsRuns | gtp.c:6985-7000 | whole runs of the rewritten code by array position equal runs of the original by variable number |
| AgentRuns.SimpleCheckSound | gtp.c:8076-8086 | what acceptance buys: the rewritten code ends within size iterations, with the outcome of the original |
| AgentRuns.CheckedStep | gtp.c:4530-4545 | a checked opcode does what the plain one does, or reports a code error where that would pop below the array |
| AgentRuns.LoopStepMeaning | gtp.c:4489-5062 | each iteration of loop-checked code is the original one or that report |
| AgentRuns.LoopCheckSound | gtp.c:5027-5043 | every run of loop-checked code, however long, keeps pc at a walked instruction and starts each iteration with at most STACK_MAX - 5 values, without a fault |
| AgentMeaning.CombineMeans | gtp.c:4530-4815 | add, sub and mul agree with the numbers modulo 2^64, the value below first; lsh, rsh_unsigned and rsh_signed move the bits, the last with the sign coming in; and, or, xor work bit by bit; equal and the two less give 1 or 0 by the signed or unsigned order |
| AgentMeaning.MeansOne | gtp.c:4530-4815 | each of these descriptions fits one value only |
| AgentMeaning.RunComputes | gtp.c:4914-4942 | const64 a, const64 b, an operator plain or checked, end: the run stops with what the operator means for the two numbers, read with the high byte first, a below b |
| AgentMeaning.OperatorStep | gtp.c:4530-4815 | an operator takes one value off the stack, puts its meaning on top and changes nothing else |
| AgentMeaning.DivideStep | gtp.c:4570-4642 | division and remainder report a divisor of 0 as a code error |
| AgentMeaning.CheckedOpcodes | gtp.c:275-296 | the numbers of the checked opcodes, in the order of the enumeration |
| AgentMeaning.CheckedStops | gtp.c:4530-4985 | a checked opcode with too little on the stack, two values for trace and one for the others, reports a code error |
| AgentMeaning.StackStep | gtp.c:4943-4982 | dup, pop and swap |
| AgentMeaning.JumpStep | gtp.c:4863-4891 | goto and if_goto take the high byte first; if_goto jumps on a top other than 0 and pops either way |
| AgentMeaning.NotStep | gtp.c:4733-4776 | log_not, and bit_not bit by bit |
| AgentMeaning.ExtendStep | gtp.c:4817-4966 | ext repeats the highest bit kept, zero_ext clears what is above, widths of a word or more change nothing |
| AgentMeaning.ConstantStep | gtp.c:4892-4925 | const8 to const64 push the number of 1, 2, 4 or 8 bytes, the high one first |
| AgentMeaning.TwoDigits | gtp.c:4892-4903 | the number of one byte, and of two with the high one first |
| AgentMeaning.LoadStep | gtp.c:4827-4861 | ref8 to ref64 load 1, 2, 4 or 8 bytes from the address on top, a failure is a code error |
| AgentMeaning.RegisterStep | gtp.c:4927-4935 | reg pushes the register its operand names, a failure is an error of the host |
| AgentMeaning.CollectStep | gtp.c:4678-4724 | trace collects as many bytes as the top says from the address below it and pops both; trace_quick as many as its operand says from the address on top |
| AgentMeaning.GetStep | gtp.c:4984-4998 | getv pushes the variable its operand names, by number or by position |
| AgentMeaning.SetStep | gtp.c:5000-5018 | setv stores the top and leaves it there, tracev collects a variable |
| AgentMeaning.EndStep | gtp.c:4937-5043 | end stops with the top; an action with loops stops on more than 27 values left by an iteration, and is otherwise no different |
| AgentInterpreter.Interpreter.Iterate | gtp.c:4522-5043 | one turn of the loop over the array, in place, is one step of the machine; after an operator the new top is what the operator means for the old top and the value below it |
| AgentInterpreter.Interpreter.RunStraight | gtp.c:4489-5062 | the loop over the array ends on accepted code with the outcome of the original code (its values: AgentMeaning) |
| PageRing.Inserted | gtp_rb.c:546-591 | linking a page in at any place keeps next and prev inverse on one cycle |
| PageRing.Unlinked | gtp_rb.c:513-544 | taking a page out closes the cycle over the rest |
| PageRing.AllocOpens | gtp_rb.c:242-287 | room of the aligned size inside one page, with an end mark behind and a begin record before it when the frame crosses pages; the oldest page discarded in circular mode; otherwise failure with nothing lost |
| PageRing.AllocFails | gtp_rb.c:242-287 | allocation fails exactly for a size above 4068, or not in circular mode when w's page is too short and the next page is r's, which is when every page of the ring lies between them |
| PageRing.AllocPlace | gtp_rb.c:242-287 | the room is at w if it fits there, else at the start of the next page, behind the begin record of a frame that goes on; r moves only off a page taken, and w by the aligned size |
| PageRing.ReleaseGivesBack | gtp_rb.c:218-221 | setting w back restores what was held but a discarded page |
| PageRing.GetPageTakes | gtp_rb.c:513-544 | takes the oldest page with all it holds from r on; none exactly when nothing is held |
| PageRing.PutPageEmpty | gtp_rb.c:546-591 | an emptied page becomes the next to write, or the one written |
| PageRing.PutPageBack | gtp_rb.c:546-591 | a page put back unread is the oldest again with its entries, if r is at the start of its page |
| PageRing.ResetEmpties | gtp_rb.c:103-116 | nothing is held after a reset and the ring is the same |
| PageRuns.RingBuffer.Alloc | gtp_rb.c:242-287 | the method on the fields computes the specified allocation, and remembers w for the release |
| PageRuns.RingBuffer.PageAlloc | gtp_rb.c:146-190 | succeeds exactly with at least three pages wanted and supplied, and then the ring is empty, linked both ways, from the last page obtained to the first |
| PageRuns.RingBuffer.PageFree | gtp_rb.c:192-216 | frees every page of the ring exactly once |
| PageRuns.DoKeepsGood | gtp_rb.c:513-591 | every operation, a page out or not, keeps the links, the set of pages, the tiling and alignment, and r at the start of its page while a page is out |
| PageRuns.RunsKeepGood | gtp_rb.c:23-30 | over every run, and w stays word-aligned in the data area |
| PageRuns.FreshIsGood | gtp_rb.c:146-190 | a ring of three pages just built satisfies the invariant |
| PageWalk.Walk | gtp_rb.c:341-428 | ends on all contents a writer leaves, circular discards included, at the place and for the reason of the entry scan (which is: FrameMeaning.WalkStops), never with the error reason |
| PageWalk.PagesVanish | gtp_rb.c:341-428 | passing pages, the walk depends on the entries alone, not on where pages end |
| PageWalk.WalkStaysInFrame | gtp_rb.c:341-428 | with the id checked the walk passes only records of that frame and stops at the next head, the record sought, or w |
| PageWalk.RegionStands | gtp_rb.c:289-340 | from r a walk stands before everything held |
| PageWalk.WrittenContent | gtp_rb.c:258-281 | writing appends the entry, after a begin record exactly when a frame that goes on crosses into a page, and cuts the oldest page off the front exactly when it needs one and none is free, which only circular mode allows |
| PageWalk.WriteKeepsOrder | gtp_rb.c:258-281 | one write keeps the ids in order, also when a discard leaves an orphan continuation at r |
| FrameOrder.HeadInOrder | gtp.c:3865-3918 | a new frame takes the next value of the counter; its ring stays in order, the id is its newest and nothing on the ring is beyond the counter; or the ring is full and unchanged |
| FrameOrder.RecordInOrder | gtp_rb.c:258-281 | a record of the frame begun last keeps the order and adds no frame, also when circular mode discards pages of that very frame |
| FrameOrder.GivenBackInOrder | gtp_rb.c:218-221 | room released again keeps the order, also when a page was discarded for it |
| TraceRuns.TurnKeepsSound | gtp_rb.c:126-141 | one act of any CPU, circular or not, keeps every ring sound and in order, no id beyond the shared counter, and no id on two rings |
| TraceRuns.RunsKeepSound | gtp_rb.c:242-287 | so over every run of any number of CPUs, with rooms released and all rings reset in between |
| TraceRuns.FreshIsSound | gtp_rb.c:146-190 | rings just built, one to a CPU, are a sound start |
| TraceRuns.SoundAllows | gtp_rb.c:242-287 | in a sound state every act of a CPU can be done, records inside a frame |
| TraceRuns.ReadRun | gtp_rb.c:470-511 | after any run repeated reads give every frame of every CPU once, in increasing id |
| TraceRuns.DrainRun | gtp.c:12956-12992 | after any run, and while the writers go on with ids of the counter, the pipe delivers every frame of every CPU once and whole, those of a CPU in the order written: first those that were there, one for each head with all register, memory and variable records behind it, then those written meanwhile; all in increasing id if the writers have stopped |
| FrameRead.MergedInOrder | gtp_rb.c:470-511 | over lists that increase and share no id the merge enumerates every id of every CPU once, strictly increasing |
| FrameRead.Reader.FindLeast | gtp_rb.c:470-511 | each CPU is at its next head and the first one with the least id is chosen |
| FrameRead.Reader.UpdateCurrent | gtp_rb.c:459-468 | the frame whose head the chosen CPU is at becomes current with its id and tracepoint, and the CPU's position is right behind that head |
| FrameRead.Reader.Read | gtp_rb.c:470-511 | the next frame of the merge becomes current: its id, its tracepoint, the CPU that has it, with the position behind its head; or -1, no current frame and a reset, exactly when none is left |
| FrameRead.Reader.ReadAll | gtp_rb.c:444-511 | repeated reads give exactly the merge, each id of every CPU once in increasing order, and end in a reset |
| FrameRead.Reader.StepTo | gtp.c:12303-12309 | code that read the frame's records leaves the CPU's position behind them, and no frame is lost for the reads that follow |
| FrameRead.Reader.FindNum | gtp.c:9239-9252 | from any place in a pass, lands on the n-th frame of the merge if there is one, else -1 |
| FrameRead.HeadsOrdered | gtp_rb.c:118-141 | the ids of one CPU's heads are increasing and not 0 |
| FrameCollect.Tracer.ActionHead | gtp.c:3865-3937 | a head with the next id, linked back to the one before, or no change to the counter |
| FrameCollect.Tracer.MemoryRead | gtp.c:4114-4181 | ends, and on success the frame gained blocks that tile the range in order with the bytes read, over any number of pages; the rest of the content is as before but for pages cut off in circular mode |
| FrameCollect.Tracer.CollectBlock | gtp.c:4135-4181 | one block, or nothing left behind when reading fails or the ring is full; the ids stay in order each time |
| FrameCollect.Tracer.CollectRecord | gtp.c:4430-4463 | one register or variable record of the frame, or no change when the ring is full |
| FrameCollect.ReadBack | gtp.c:11059-11111 | the window is the old buffer overlaid with the frame's blocks, and success means a block touched it |
| FrameCollect.RoundTrip | gtp.c:11059-11111 | over a frame whose only memory is one collection, a window inside the range holds exactly the collected bytes |
| FrameCollect.WindowExact | gtp.c:4135-4181 | over blocks that tile a range every window inside it shows the memory |
| FrameTrip.Collect | gtp.c:4114-4181 | a frame on one CPU of many with registers and variables before and after one memory collection: its id is the newest and on no other CPU, its blocks tile the range with the bytes read, and all rings stay in order with no id on two |
| FrameTrip.AddFrames | gtp.c:5206-5246 | frames of any CPUs one after the other: each ring gains whole frames with newer ids at its end, and only circular mode cuts its front |
| FrameTrip.MPacket | gtp.c:11059-11111 | the window is overlaid with the blocks of the current frame, on whichever CPU it is |
| FrameTrip.SelectAndRead | gtp.c:9239-9252 | selects frame n of the merge of all CPUs if there is one, and shows exactly the blocks behind its head |
| FrameTrip.Trip | gtp.c:4114-4181 | collect on one CPU, let frames of any CPU follow, select a frame by number among all CPUs, read a window: the frame is found exactly where the merge has its id, and then the packet returns the traced memory; without circular mode it is in the merge, and last if none followed; what was required of the rings holds again |
| FrameBack.ReverseUndoesForward | gtp_rb.c:430-438 | the step back from a head is the head before it on that CPU, and none from the first |
| FrameBack.ReverseOnEveryRun | gtp.c:3914-3918 | so in every non-circular run from a reset |
| FrameBack.ResetIsGood | gtp_rb.c:103-116 | a reset is a start from which the chain of links back is whole |
| FrameBack.HeadKeepsChain | gtp.c:3883-3918 | a new frame keeps the chain of heads linked back |
| FrameJobs.Perform | gtp.c:5203-5265 | while the pipe may hold a page, the writer adds one frame whole at the end of what is to be delivered, with all its records or those before the first that found no room, or nothing when the ring is full |
| FrameJobs.PerformAll | gtp.c:5203-5265 | frames one after the other: those of the jobs in their order, with increasing ids |
| FramePipe.NextHead | gtp.c:12767-12807 | through as many pages as it takes, with the writer at work before each turn at the lock, the next head is found or nothing is left; only entries without a head are passed |
| FramePipe.GetFrame | gtp.c:12820-12992 | the frame comes out over the pages it spans, and only it, whatever the writer adds meanwhile: what was passed is its head and what lies up to the next one, and the records are all registers, memory blocks and variables there, in order |
| FramePipe.Pipe.Peek | gtp.c:12767-12807 | the CPU whose next frame has the least id, nothing delivered or lost, and what the writers added is behind what was there |
| FramePipe.Pipe.GetEntry | gtp.c:12820-12992 | delivers the next frame of a CPU, whole as GetFrame says, no newer than any frame that was there before, the first of the merge if no writer had a turn; none only when nothing is left |
| FramePipe.Pipe.Drain | gtp.c:12956-12992 | for any turns of the writers at the locks: per CPU the frames delivered are those held at the start and those written meanwhile, each once, in order, with all records, and those written are the jobs' in their order; if the writers have stopped they are one frame for each head of the entries, with all records behind it, in increasing id; all pages are back in their rings |
| FramePipe.Pipe.Settle | gtp_rb.c:513-591 | one CPU's turn keeps the books of all: delivered and left together are all it ever had |
| Delivery.WriterAdds | gtp_rb.c:242-287 | one write between the pipe's turns at the lock only adds at the end of what is to be delivered, exactly if there is room |
| Delivery.TakeReady | gtp_rb.c:513-544 | taking a page delivers nothing and loses nothing, and there is none exactly when nothing is left |
| Delivery.GiveReady | gtp_rb.c:546-591 | giving a page back loses only what was left on it |
| FrameMeaning.ExactlyRecords | gtp_rb.c:341-428 | the records of a frame are its registers, memory blocks and variables, each once and in order, and no others |
| FrameMeaning.ExactlyFrames | gtp.c:12820-12992 | the frames among entries are one for each head, with its id, its tracepoint and the records between it and the next head, and no others |
| FrameMeaning.HeadsAreIds | gtp_rb.c:470-511 | the ids merged are those of the frames |
| FrameMeaning.WalkStops | gtp_rb.c:341-428 | which entries a walk passes and where and why it stops, flag by flag; with steps counted it passes no more registers, memory blocks and variables than it may |
| FrameFile.ReadsBack | gtp.c:12183-12315 | n bytes hold a number exactly when it is below 256^n |
| FrameFile.FrameRoundTrip | gtp.c:12183-12315 | a frame decodes to its number, its blocks and what follows it |
| FrameFile.ExportRoundTrip | gtp.c:12176-12315 | the bytes of an exported frame decode to its blocks, which are the CPU variable and the records in order (FrameShown.BlocksShow), and leave what follows |
| FrameShown.BlocksShow | gtp.c:12090-12315 | the blocks of an exported frame are $cpu_id with the CPU's number, then those of each record in order: the register bytes, the variable's number and value, or the memory in pieces of 65535 bytes but for the last, each with its address |
| FrameShown.ShowsOne | gtp.c:12090-12315 | the CPU and the records determine the blocks |
| FrameShown.CpuShows | gtp.c:12242-12254 | two exports of one frame from different CPUs have different blocks |
| FrameShown.BlockBytes | gtp.c:12067-12175 | the bytes of each kind of block: the letter, then numbers with the low byte first |
| FrameFile.SplitJoins | gtp.c:12090-12139 | the blocks of a memory record concatenate to its bytes |
| FrameFile.SplitAddresses | gtp.c:12090-12139 | each block's address follows the blocks before it |
| FrameFile.Output.Extend | gtp.c:2340-2366 | room after what was written, which survives a move of the buffer |
| FrameFile.Output.WriteM | gtp.c:12090-12139 | appends the record's blocks of at most 65535 bytes and counts them |
| FrameFile.Output.BeginFrame | gtp.c:12198-12254 | appends the number in 16 bits, room for the size, and the bytes of the CPU variable, a V, the number 2 and the CPU |
| FrameFile.Output.WriteRecord | gtp.c:12277-12295 | appends the blocks of one record and counts their bytes |
| FrameFile.Output.EndFrame | gtp.c:12310-12312 | patches the size in, wherever the buffer is by then, which makes the bytes the encoded frame |
| FrameExport.Frame2File | gtp.c:12198-12315 | walks the ring from behind the frame's head over as many pages as the frame takes; the bytes appended read as a frame of this tracepoint and this CPU with all registers, memory blocks and variables up to the next head, in order; the position is left at the next head or at w |
| FrameExport.ExportAll | gtp.c:12525-12544 | a reader of the file finds every frame of every CPU once, in the order of the merge, each with its number, its CPU and all records between its head and the next, up to the first whose number ends the file; it ends with two zero bytes |
| FrameExport.FileRoundTrip | gtp.c:12525-12544 | reading such a file gives back the blocks of the frames, up to the first whose number is 0 in 16 bits |
| FrameExport.FileShown | gtp.c:12525-12544 | what a reader finds: each of these frames with its number, the CPU it was collected on and its records |
| FrameExport.WholeFileReadsBack | gtp.c:12525-12544 | a reader finds the whole file, numbers, CPUs and records, if and only if no frame has such a number |
| FrameExport.FrameHidesTheRest | gtp.c:12198-12216 | tracepoint 65536 followed by tracepoint 1: the reader finds no frame |
| FrameExport.ReadFile | gtp.c:12525-12574 | the frame that was current is current again; if none was, every ring is reset and holds no frame afterwards |
| ByteArena.FrameArena.Alloc | gtp.c:3781-3838 | returns unless Hangs; room that overlaps nothing readable; the entries given up are what was left of the lap before when it wraps, and the oldest ones that begin before the end of the room |
| ByteArena.FrameArena.Reclaim | gtp.c:3812-3825 | the loop ends and gives up exactly the oldest entries in the way of the room |
| ByteArena.FrameArena.AddAll | gtp.c:3781-3838 | any number of entries of at most half the arena: all succeed, and what is readable is a suffix with the newest |
| ByteArena.HalfNeverHangs | gtp.c:3781-3838 | entries of at most half the arena never meet the condition |
| ByteArena.HangsForever | gtp.c:3805-3830 | under the condition the reclaiming loop goes on for any number of turns |
| ByteArena.OneEntryThenHang | gtp.c:3805-3830 | one entry, then in circular mode a request longer than it that does not fit behind it: from the empty arena, a reachable state in which the loop does not end |
| ByteArena.FrameHeadThenHang | gtp.c:3805-3830 | a frame head of 28 bytes and a request for the whole arena is such a case |
| ByteArena.Walk | gtp.c:3742-3773 | visits every readable entry once, oldest first |

## Left out

- LocklessRing: page contents and counters, with the reader's limit of three rounds; reordering of memory accesses by the processor; what the reader does once it has NULL for the head. The model is a state machine over values, because the property is about interleavings; `EventFifo` has the fields changed in place.
- LocklessRing.WriterKeepsInv: a tail move while the commit page still trails, which the retry loop makes only for data of 4065 to 4072 bytes that needs a time extension; and writers that interrupt each other while the head is moved (the UPDATE and NORMAL answers in rb_handle_head_page, ring_buffer.c:1716-1845).
- NestedCommit: the reader; whether the head page could be moved is a free answer. Two bail-outs of rb_set_commit_to_write, the one after max_count rounds and the one when the tail page is the reader's page. The 12-bit updater count and 20-bit index of a page's write counter are two unbounded fields. Time stamps, and the swap of buffers.
- EventFifo: writers that interrupt each other and steps of the other side inside an operation (the two models above). The ring is a list of pages from the head on. Time stamps are reduced to the question whether one needs an extension. The limit max_count of the commit loop; the recursion test; the count of lost events reported to the reader; the event is named by its number, its data is not stored.
- AgentCheck.Checker.CheckSimple: constant folding (gtp.c:7206-7439), so the model accepts exactly the code the depth and flow rules accept. The $printk_level and printk opcodes. kmalloc failures. What the special variables answer is part of the variable list.
- AgentCheck.Checker.CheckLoop: code that sets variables and has more than 256 of them, as the pass walks into the operand of setv; code with a checked if_goto in its original bytes; code an earlier check has rewritten.
- AgentCheck.LockStaysExact: the lock itself.
- AgentMachine: do_div, shifts by 64 or more and odd ext widths are whatever the host answers; the printing opcodes.
- Agent programs whose jumps land inside an operand: RegularCode excludes them, because operands are overwritten; for those only termination and memory bounds of the checks are proved.
- PageRing: the lock, the count of discarded pages; pages are 4096 bytes with 64-bit links and register blocks of 168 bytes; addresses do not wrap around. Storing an entry forgets what the page held behind it.
- PageRing.PutPageBack: not the branch that gives a page up when r is inside its page; PageRuns.DoKeepsGood shows that it is never taken.
- Frame ids: 64-bit wrap-around of the counter, which would skip 0. FrameRead.Reader and FramePipe.Pipe need ids below ULLONG_MAX, which the code uses for "none".
- FramePipe.Pipe.Drain: waiting for the next frame, several readers, CPUs that come and go, circular mode. The writers' turns are finitely many.
- FrameExport.Frame2File: vmalloc failures; gtp_regs2bin is a parameter that yields a fixed number of bytes; the size of a frame is below 2^32 (FrameFile.ReadsBack says that this is needed).
- FrameExport.ExportAll: the header lines of the file and the bytes copied to user space.
- TraceRuns.RunsKeepSound: pages the pipe has taken out of a ring while its CPU goes on writing, which FramePipe.Pipe.Drain has.
- ByteArena.FrameArena.Alloc: the lock, and what the entries hold.
- FrameCollect.Tracer.MemoryRead: the register and variable collections, which are one record each (FrameCollect.Tracer.CollectRecord).
- Probes, work queues, debugfs and procfs, hardware watchpoints, while-stepping, perf events, time stamps, resizing, 8-byte alignment, getmod.c, getframe.c, putgtprsp.c and the scripts: device state, set-up or user interface.

# Verified models of the shell and camera cores

Dafny models of the parts of this repository whose correctness is hardest to see from
the code, with proofs of what they promise.

- **Scripts** (`Script*.dfy`, `ParserObject.dfy`). NuttShell runs `if`, `while`, `until` and
  `break` without a syntax tree: each line updates two bounded stacks of flags, and `done`
  seeks back in the file. `ScriptMachine` is that machine, `ParserObject` the same machine
  on arrays and fields, `ScriptMeaning` a structured meaning, and `ScriptTheorems`,
  `ScriptWritten` and `ScriptDepartures` say where the two agree, for scripts as they are
  written, and what happens where they do not. What a command does is arbitrary: it may
  depend on everything executed before it.
- **Camera pipeline** (`Pipeline*.dfy`, `FrameQueue.dfy`). Producer and consumer share a
  pool of N buffers, two linked lists, a mutex, one condition variable and a shutdown flag.
  Each critical section is one step of `PipelineModel`; results of blocking calls and
  spurious wake-ups are arbitrary. `PipelineTheorems` is about whole runs and
  `PipelineCauses` about why one is stopped. `PipelineObject` performs the steps on
  heap-linked nodes.
- **Command lines** (`Tokenizer.dfy`, `CommandLine.dfy`, `Printing.dfy`, `RoundTrip.dfy`,
  `Backslash.dfy`). Splitting and unquoting inside the line's own buffer, and printing as its
  inverse.
- **Variables** (`Variables.dfy`, `VariableStore.dfy`, `EnvCommands.dfy`). One flat buffer of
  `name=value` strings as a map, and set, unset and export over it and the environment.
- **Aliases** (`Alias*.dfy`). A fixed pool, expansion marks and deferred deletion.
- **Smaller algorithms** (`RunLength.dfy`, `HelpLayout.dfy`, `HexDump.dfy`, `Rotation.dfy`,
  `Quaternions.dfy`).

`CStrings.dfy` holds NUL-terminated strings in a buffer; `Sequences.dfy` and `Wrappers.dfy`
hold slices and an option type.

The configuration is fixed: scripts, loops and conditionals enabled, background commands
off, scripts with one command per line, `NSH_PFLAG_IGNORE` set (a failing command does not
end the script), `CONFIG_NSH_NESTDEPTH` any positive number. `CONFIG_NSH_QUOTE` is off in
the tokeniser and on in `Backslash.dfy`. I/O, clocks, memory and the results of operating
system calls are parameters.

## Findings

Each is stated with its exact condition in the lemma named.

- A loop directly inside a loop body runs its condition even when the body is being skipped,
  because only the top loop frame is looked at (`SkippedLoopRunsCondition`).
- `break` under an `if` opened inside the loop drops that `if` (`BreakKeepsFrames`). Its `fi`
  is then rejected if the loop stands in no branch of a conditional (`BreakUnderIf`);
  otherwise it closes that conditional, so that both branches of it can run
  (`FiAfterBreak`, `ElseAfterBreak`, `BothBranchesRun`).
- A keyword on the line of a `then` or `else`, such as `then while b`, and a loop keyword on
  that of a `do`, is run as a command of that name (`KeywordBehindKeyword`).
- A `#` in the middle of a word hides the semicolons after it, and a semicolon between
  back-quotes splits the command there, because nsh_parse and nsh_argument disagree on what
  these characters are (`HashInWord`, `BackQuotedSemicolon`).
- The offset recorded for a command on a line is not its start when a quoted string stands in
  it, although a comment in the code says it is; a loop whose condition is quoted would go
  back behind it (`OffsetIsStart`, `QuotedCondition`).
- `export NAME` of a name that is already exported empties it (`ExportKeepsValue`).
- An alias defined again while its removal is pending is reported as saved and then lost
  (`SavedSurvives`, `PendingIsLost`, `SourcedRedefinition`).
- A set of `?` stores a variable that `$?` never shows (`SetShowsIff`, `SetOfStatus`).
- A one-word alias hands out its value itself, and saving the alias again frees that value
  while the command line still stands in it (`ValueKeptIff`, `SavedWhileInUse`).
- No command checks that a variable's name has no `=`, on which the variable store relies:
  with one, a lookup can run past the ends of its strings (`StopsInside`,
  `RunsPastTheEnd`), another variable can be replaced or removed (`HarmlessIff`,
  `SetWithEquals`), and a name can get into both stores (`DisjointKeptIff`).

## Model

| member | source | states |
|---|---|---|
| `ScriptTheorems.MeaningPreserved` | apps/nshlib/nsh_script.c:136-179 | if the structured meaning of a script ends, the flag-and-stack machine reaches the end of its text having executed the same commands in the same order with the same results and `$?`, with both stacks as at the start; if the meaning runs out of fuel the machine is still inside the script |
| `ScriptTheorems.MeaningReflected` | apps/nshlib/nsh_script.c:136-179 | conversely, whenever the machine reaches the end of the text the meaning ends, in the same world, unless the run left the supported path |
| `ScriptTheorems.ScriptMeansProgram` | apps/nshlib/nsh_parse.c:536-593 | for every script of the supported shape, every depth it nests in and every behaviour of its commands: the machine ends if and only if the meaning does, and then with equal traces and `$?` |
| `ScriptTheorems.NothingRejected` | apps/nshlib/nsh_parse.c:1989-2343 | on the supported path no line is ever rejected, whether the script ends or not |
| `ScriptWritten.WrittenMeansProgram` | apps/nshlib/nsh_parse.c:2538-2618 | for scripts as they are written, with blank and comment lines anywhere and commands on lines of their own or behind `do`, `then` and `else`: the machine ends if and only if the meaning does, and then with equal traces and `$?` and no construct open; no line is rejected on the way |
| `ScriptWritten.WordlessLinesIgnored` | apps/nshlib/nsh_parse.c:2606-2615 | for arbitrary, also malformed, scripts: without its lines that hold no word the script ends or does not just the same, with the same trace, `$?`, number of rejected lines and, but for line numbers, the same two stacks |
| `ScriptWritten.MeetSomewhere` | apps/nshlib/nsh_parse.c:2001 | and whether it ends or not, every state the written script gets to is one the tidied one gets to, but for line numbers |
| `ScriptLayout.JoinedIsTwo` | apps/nshlib/nsh_parse.c:2067-2083 | an accepted `do`, `then` or `else` with a command behind it does what the two do on two lines, in any state and for any command but a loop keyword behind `do` and any keyword behind the other two |
| `ScriptWritten.WrittenWithBlank` | apps/nshlib/nsh_parse.c:2606-2615 | a line without a word may be put into any writing of a program |
| `ScriptWritten.WrittenOnOneLine` | apps/nshlib/nsh_parse.c:2248-2256 | a command may be put on the line of the `do`, `then` or `else` before it in any writing of a program |
| `ScriptWritten.PrintedIsWritten` | apps/nshlib/nsh_parse.c:2538-2618 | the printed program, a line for each command, is one way to write it |
| `ScriptMeaning.SupportedStaysOn` | apps/nshlib/nsh_parse.c:1912-1929 | the syntactic shape (no loop directly in a loop body, no `break` below an `if` opened in the loop) keeps every run on the supported path; a body breaks exactly when a `break` stands directly in it |
| `ScriptSimulation.Simulate` | apps/nshlib/nsh_parse.c:2538-2618 | the simulation, for any block at any position, from any enabled state that has room for its nesting: all frames below the block survive it |
| `ScriptSimulation.Skip` | apps/nshlib/nsh_parse.c:1973-1981 | a disabled block is walked through line by line: nothing runs, `$?` and both stacks are unchanged |
| `ScriptSimulation.LeaveLoop` | apps/nshlib/nsh_parse.c:2087-2149 | `done` goes back to the loop's first line while the loop is enabled and past it otherwise, popping one frame |
| `ScriptTheorems.StackSafety` | apps/nshlib/nsh_parse.c:2035-2062 | for arbitrary, also malformed, lines: both indices stay inside their stacks, frame 0 of each is normal, and the two pops of frame 0 marked as impossible cannot be reached |
| `ScriptTheorems.RejectedIff` | apps/nshlib/nsh_parse.c:2008-2159 | for every line in every state: it is rejected if and only if one of the listed conditions on its first words and the two top frames holds |
| `ScriptTheorems.RejectedLine` | apps/nshlib/nsh_parse.c:2165-2173 | a rejected line runs no command, leaves the stack that rejected it reset to frame 0, and sets `$?` unless a condition was waiting for a result |
| `ScriptDepartures.SkippedLoopRunsCondition` | apps/nshlib/nsh_parse.c:1912-1929 | a loop line inside a skipped loop body runs its condition exactly when no `if` frame disables it |
| `ScriptDepartures.NestedLoopRuns` | apps/nshlib/nsh_parse.c:1921-1928 | so a loop directly in a loop is not skipped when the outer condition is not met, whatever the conditions and bodies are |
| `ScriptDepartures.BreakKeepsFrames` | apps/nshlib/nsh_parse.c:2910-2920 | `break` keeps the open `if` frames exactly when none was opened since the loop's line |
| `ScriptDepartures.FiAfterBreak` | apps/nshlib/nsh_parse.c:2292-2321 | after a `break` under an `if` that the loop body opened, and whatever is left of that branch, the branch's own `fi` is rejected if and only if the frame in which the loop began is in neither branch of a conditional; otherwise it closes that outer frame |
| `ScriptDepartures.ElseAfterBreak` | apps/nshlib/nsh_parse.c:2271-2288 | likewise an `else` is rejected if and only if that frame is not in its first branch; otherwise it switches the outer conditional |
| `ScriptDepartures.BreakUnderIf` | apps/nshlib/nsh_parse.c:2910-2920 | inputs for the first case: a loop at the top of a script around `if c; then break; fi` rejects its own `fi` and leaves `$?` set although no command failed |
| `ScriptDepartures.BothBranchesRun` | apps/nshlib/nsh_parse.c:2910-2920 | inputs for the second: `if a; then while b; do if c; then break; fi; done; else d; fi` runs `d` too after `a`, `b` and `c` were met, with any polarity of the conditions |
| `ScriptDepartures.KeywordBehindKeyword` | apps/nshlib/nsh_parse.c:2248-2266 | a keyword behind `then` or `else`, or a loop keyword behind `do`, on the same line names a command: it is run as one if commands are enabled, and opens or closes nothing |
| `ScriptMachine.NshLoop` | apps/nshlib/nsh_parse.c:1989-2174 | keeps the stack invariant, never touches the `if` stack, trace or `$?`, and on an error, which it counts, leaves the loop stack at frame 0, enabled |
| `ScriptMachine.NshItef` | apps/nshlib/nsh_parse.c:2182-2343 | keeps the stack invariant, never touches the loop stack, trace or `$?`, and on an error, which it counts, leaves the `if` stack at a normal frame 0 |
| `ParserObject.Parser.constructor` | apps/nshlib/nsh_console.c:358-364 | two fresh arrays of frames, both at frame 0 |
| `ParserObject.Parser.CmdEnabled` | apps/nshlib/nsh_parse.c:1912-1981 | the test on the two top frames |
| `ParserObject.Parser.SaveResult` | apps/nshlib/nsh_parse.c:536-593 | the status of a command goes to the waiting `if` or loop condition, else to `$?`; the new state is the specification's |
| `ParserObject.Parser.LoopBegin` | apps/nshlib/nsh_parse.c:2008-2063 | `while` and `until` in place: the frame written is the specification's, and all errors are |
| `ParserObject.Parser.LoopEnd` | apps/nshlib/nsh_parse.c:2087-2149 | `done` in place |
| `ParserObject.Parser.Loop` | apps/nshlib/nsh_parse.c:1989-2174 | nsh_loop in place: new state, remaining words and result are the specification's |
| `ParserObject.Parser.ItefBegin` | apps/nshlib/nsh_parse.c:2195-2246 | `if` in place, with `!` |
| `ParserObject.Parser.ItefEnd` | apps/nshlib/nsh_parse.c:2292-2321 | `fi` in place |
| `ParserObject.Parser.Itef` | apps/nshlib/nsh_parse.c:2182-2343 | nsh_itef in place: new state, remaining words and result are the specification's |
| `ParserObject.Parser.CmdBreak` | apps/nshlib/nsh_parse.c:2901-2927 | break in place |
| `ParserObject.Parser.Execute` | apps/nshlib/nsh_parse.c:599-882 | one command: it is recorded with the `$?` it started with, and its status saved |
| `ParserObject.Parser.ParseCommand` | apps/nshlib/nsh_parse.c:2538-2618 | nsh_loop, then nsh_itef, then the command if it is enabled: the new state is the specification's |
| `ParserObject.Parser.Line` | apps/nshlib/nsh_script.c:145-172 | read, parse, remember the offset: one step of the specification |
| `ParserObject.Parser.Script` | apps/nshlib/nsh_script.c:136-179 | `budget` turns of the script loop are `budget` steps of the specification |
| `PipelineProofs.StepKeeps` | apps/examples/security_camera/camera_threads.c:214-566 | every step of every thread keeps the whole invariant: partition of the buffers, no lost wake-up, life cycle, error counts, stream order |
| `PipelineTheorems.EachBufferInOnePlace` | apps/examples/security_camera/frame_queue.c:184-240 | in every reachable state each of the N buffers is in exactly one of the two queues and two hands while the pool exists, and nothing else is anywhere |
| `PipelineTheorems.NeverBothAsleep` | apps/examples/security_camera/camera_threads.c:238-251 | a thread asleep has an empty queue and was not asked to stop; with N >= 1 the two are never asleep together |
| `PipelineTheorems.SomeThreadCanMove` | apps/examples/security_camera/camera_threads.c:455-481 | no deadlock: until both threads have ended one of them has a step that is no spurious wake-up |
| `PipelineTheorems.EndToEndFifo` | apps/examples/security_camera/camera_threads.c:341-363 | packets attempted, then the packet in USB's hand, then the action queue, equal the sequence the camera pushed; hence what USB attempts is always a prefix of it |
| `PipelineTheorems.PackedInOrder` | apps/examples/security_camera/camera_threads.c:264-363 | over every run: packets attempted, then the packet in USB's hand, then the action queue, then the packet in the camera's hand, are exactly the packets of the successful packs, in order; so frames that fail capture or packing take no place |
| `PipelineTheorems.StoppingRun` | apps/examples/security_camera/camera_threads.c:244-248 | once the flag is set, along any run nobody falls asleep and each step of a thread uses up one of those it has left, also when the USB thread has yet to be created |
| `PipelineTheorems.ShutdownEndsThreads` | apps/examples/security_camera/camera_threads.c:490-527 | from every reachable state with the flag set, whoever set it and when, any run holds at most four camera steps and three USB steps; a thread that used them up has ended, and one that was created and has not ended can move |
| `PipelineTheorems.JoinedHoldsNothing` | apps/examples/security_camera/camera_threads.c:693-719 | when both threads are joined no buffer is in hand and all N are in the queues |
| `PipelineTheorems.ReleasedOnce` | apps/examples/security_camera/camera_threads.c:621-728 | the pool is released at most once, never under a live thread, and at the end exactly as often as it was allocated |
| `PipelineCauses.UsbRaisesIff` | apps/examples/security_camera/camera_threads.c:486-527 | over every run from the start: the USB thread is about to raise shutdown if and only if its last step was a send that found the device disconnected, or the tenth failed send since the last successful one, counted on the labels of the run |
| `PipelineCauses.CamRaisesIff` | apps/examples/security_camera/camera_threads.c:265-298 | likewise the camera thread, if and only if its last step was the third capture error since the last frame; timeouts neither count nor reset |
| `PipelineCauses.ShutdownIff` | apps/examples/security_camera/camera_threads.c:286-289 | the flag is set if and only if a thread raised it, or main stopped, gave up starting, failed to allocate or cleaned up |
| `PipelineCauses.RaisedForCause` | apps/examples/security_camera/camera_threads.c:490-499 | on the labels alone: every raise in a run has one of these causes in the part of the run before it |
| `PipelineCauses.RaisingIsNext` | apps/examples/security_camera/camera_threads.c:494-499 | a thread about to raise shutdown takes no other step first, no other thread moves it on, and the step sets the flag |
| `PipelineCauses.ThreadsFollowTheirCalls` | apps/examples/security_camera/camera_threads.c:214-566 | where each thread stands after any run follows from its own last step: after a frame it packs, after a pack it publishes, after a timeout, a failed pack or a tolerated error it gives the buffer back and goes on |
| `FrameQueue.Queue.Push` | apps/examples/security_camera/frame_queue.c:184-213 | appends at the tail of the linked list, which stays acyclic; NULL is ignored |
| `FrameQueue.Queue.Pull` | apps/examples/security_camera/frame_queue.c:224-240 | takes the head and clears its link; NULL when empty |
| `FrameQueue.Queue.Clear` | apps/examples/security_camera/frame_queue.c:149-173 | forgets the queue |
| `FrameQueue.Queue.IsEmpty` | apps/examples/security_camera/frame_queue.c:251-254 | true exactly when the list spells out nothing |
| `FrameQueue.Queue.Depth` | apps/examples/security_camera/frame_queue.c:265-277 | the number of nodes |
| `FrameQueue.MakeBuffers` | apps/examples/security_camera/frame_queue.c:287-330 | `count` fresh numbered buffers, or none when memory runs out on the way |
| `FrameQueue.PushAll` | apps/examples/security_camera/frame_queue.c:331-355 | all buffers, in order, into the empty queue |
| `PipelineObject.Pipeline.constructor` | apps/examples/security_camera/frame_queue.c:85-139 | empty queues, no flag, no pool: the initial state |
| `PipelineObject.Pipeline.PullEmpty` | apps/examples/security_camera/camera_threads.c:238-251 | on the linked lists: exactly the state machine's step that sleeps, leaves, or takes an empty buffer |
| `PipelineObject.Pipeline.GetFrame` | apps/examples/security_camera/camera_threads.c:264-309 | capture, timeout or error; the third error since the last frame leads to shutdown |
| `PipelineObject.Pipeline.CamRaiseShutdown` | apps/examples/security_camera/camera_threads.c:286-289 | flag and broadcast as one step |
| `PipelineObject.Pipeline.CamReturnBuffer` | apps/examples/security_camera/camera_threads.c:302-306 | the buffer in hand goes back to the empty queue |
| `PipelineObject.Pipeline.PackFrame` | apps/examples/security_camera/camera_threads.c:314-352 | writes only the buffer in hand, whether packing succeeds or not |
| `PipelineObject.Pipeline.PublishFrame` | apps/examples/security_camera/camera_threads.c:361-382 | append to the action queue and signal |
| `PipelineObject.Pipeline.PullAction` | apps/examples/security_camera/camera_threads.c:459-472 | exactly the state machine's step that sleeps, leaves, or takes a filled buffer |
| `PipelineObject.Pipeline.SendBytes` | apps/examples/security_camera/camera_threads.c:485-531 | success, error or disconnection; the tenth error since the last success leads to shutdown |
| `PipelineObject.Pipeline.UsbRaiseShutdown` | apps/examples/security_camera/camera_threads.c:496-499 | flag and broadcast as one step |
| `PipelineObject.Pipeline.UsbReturnBuffer` | apps/examples/security_camera/camera_threads.c:557-560 | back to the empty queue, with a signal except on the way out |
| `PipelineObject.Pipeline.AllocateBuffers` | apps/examples/security_camera/frame_queue.c:287-355 | the pool into the empty queue, or cleanup when memory runs out |
| `PipelineObject.Pipeline.Cleanup` | apps/examples/security_camera/frame_queue.c:149-173 | flag and broadcast, pool released and queues forgotten, for both callers |
| `PipelineObject.Pipeline.CamTestFlag` | apps/examples/security_camera/camera_threads.c:234 | one read of the flag: on or out |
| `PipelineObject.Pipeline.CamWake` | apps/examples/security_camera/camera_threads.c:239-242 | a wake-up without a signal: test again |
| `PipelineObject.Pipeline.UsbTestFlag` | apps/examples/security_camera/camera_threads.c:455 | one read of the flag: on or out |
| `PipelineObject.Pipeline.UsbWake` | apps/examples/security_camera/camera_threads.c:460-463 | a wake-up without a signal: test again |
| `PipelineObject.Pipeline.StartCamera` | apps/examples/security_camera/camera_threads.c:621-629 | the camera thread begins, or everything is cleaned up with the pool still in the empty queue |
| `PipelineObject.Pipeline.StartUsbThread` | apps/examples/security_camera/camera_threads.c:640-646 | the USB thread begins, or the start is aborted |
| `PipelineObject.Pipeline.AbortStart` | apps/examples/security_camera/camera_threads.c:647-653 | flag and broadcast, then only the camera thread is joined |
| `PipelineObject.Pipeline.StopThreads` | apps/examples/security_camera/camera_threads.c:681-689 | flag and broadcast, then both threads are joined |
| `PipelineObject.Pipeline.JoinCamera` | apps/examples/security_camera/camera_threads.c:654-698 | the join of a thread that has ended |
| `PipelineObject.Pipeline.JoinUsbThread` | apps/examples/security_camera/camera_threads.c:711 | the join of a thread that has ended |
| `PipelineObject.Pipeline.ReleasePool` | apps/examples/security_camera/camera_threads.c:723 | cleanup after the joins |
| `PipelineObject.Pipeline.Perform` | apps/examples/security_camera/camera_threads.c:214-728 | every enabled label of the state machine has its method on the linked lists, and that moves as the machine does |
| `PipelineObject.Pipeline.Run` | apps/examples/security_camera/camera_threads.c:214-728 | any interleaving with any results of the calls: the heap goes through exactly the states of the state machine, both lists stay acyclic and disjoint, and the invariant holds |
| `PipelineObject.RunFromStart` | apps/examples/security_camera/camera_threads.c:576-728 | the same for every run from a new pipeline |
| `Tokenizer.RmQuotes` | apps/nshlib/nsh_parse.c:1322-1348 | removes both quotes by shifting the quoted text by one and the rest by two; returns where the scan goes on; bytes outside are unchanged |
| `Tokenizer.NshArgument` | apps/nshlib/nsh_parse.c:1684-1905 | in the line's own buffer: delivers exactly the first token of the remaining text, leaves exactly the text after it, and changes no byte outside the string |
| `Tokenizer.FindBegin` | apps/nshlib/nsh_parse.c:1703-1705 | the text without its leading separators |
| `Tokenizer.ScanInPlace` | apps/nshlib/nsh_parse.c:1762-1857 | the word loop over a buffer that shrinks under it: text and rest are those of the pure scan, and it reports an unmatched quote exactly when that does |
| `Tokenizer.TakeQuoted` | apps/nshlib/nsh_parse.c:1790-1843 | one quoted part: both quotes removed, or back-quotes kept |
| `Tokenizer.WordInPlace` | apps/nshlib/nsh_parse.c:1755-1887 | the word terminated in place and followed by the rest |
| `CommandLine.Arguments` | apps/nshlib/nsh_parse.c:2538-2563 | repeated nsh_argument returns exactly the redirections and words of the string, each word with the flag that forbids expanding it, all still intact at the end, and writes nothing past the string's terminator |
| `CommandLine.Strcspn` | apps/nshlib/nsh_parse.c:2814-2815 | the first line separator |
| `CommandLine.SkipQuoted` | apps/nshlib/nsh_parse.c:2863-2887 | the search restarts after the closing quote; an open quote closes nothing |
| `CommandLine.RunUpTo` | apps/nshlib/nsh_parse.c:2835-2843 | terminates a command at its semicolon and parses it; bytes past that terminator and all earlier argument lists are unchanged |
| `CommandLine.ParseOn` | apps/nshlib/nsh_parse.c:2797-2888 | one turn of the loop, with everything already collected intact |
| `CommandLine.NshParse` | apps/nshlib/nsh_parse.c:2776-2894 | the commands of the line are parsed in order up to the first that fails or sets np_jump; each gets exactly its own words and flags; the exact result, open quotes included |
| `Printing.WordsOfPrinted` | apps/nshlib/nsh_parse.c:1684-1905 | a printed line of redirections and words, each word glued from any bare, single-quoted, double-quoted and back-quoted pieces, with any blanks between and any comment or open quote behind: the tokens are exactly the printed ones in order, single and double quotes gone and back-quotes kept, and a word is closed to expansion exactly when a piece of it is single-quoted |
| `Printing.NextEnding` | apps/nshlib/nsh_parse.c:1712-1741 | blanks end the line, a `#` where a word could begin is left standing as a comment, and an open quote gives no token; nothing else is taken off the line |
| `RoundTrip.CommandsOfPrinted` | apps/nshlib/nsh_parse.c:2797-2888 | joining such commands with `;` and splitting gives back exactly those commands, although single- and double-quoted text may hold `;`, `#` and newlines; and the tokens of each are the printed ones |
| `RoundTrip.OpenLineNoticed` | apps/nshlib/nsh_parse.c:2863-2887 | a line whose last command leaves a single or double quote open is noticed: the commands before it are read, and it is not |
| `RoundTrip.RunPrinted` | apps/nshlib/nsh_parse.c:2776-2894 | both, end to end in the buffer, whatever the commands do: nsh_parse runs the printed commands in order with exactly the printed arguments, up to the first that fails or jumps and never one with an open quote; the exact result |
| `RoundTrip.LineEnds` | apps/nshlib/nsh_parse.c:2817-2829 | after a newline or a `#` outside quotes no further command is looked for: all of the line goes with the command before it |
| `RoundTrip.HashInWord` | apps/nshlib/nsh_parse.c:2816-2834 | the search for a command's end takes any `#` for a comment and the tokeniser only one that begins a word: in `x#;y` the semicolon ends nothing and all of it is one word |
| `RoundTrip.BackQuotedSemicolon` | apps/nshlib/nsh_parse.c:2808-2815 | the search does not know back-quotes: a semicolon between them ends the command in an open quote, which yields no word |
| `RoundTrip.OffsetWraps` | apps/nshlib/nsh_parse.c:2803-2806 | the recorded offset has sixteen bits |
| `RoundTrip.OffsetIsStart` | apps/nshlib/nsh_parse.c:2803-2806 | for every command of a line shorter than 65536 bytes: the np_loffs recorded for it is where it begins if and only if no quote stands before its end |
| `RoundTrip.SpansFollow` | apps/nshlib/nsh_parse.c:2835-2859 | where commands begin: at the line's start, and right after each semicolon that ends a command |
| `RoundTrip.QuotedCondition` | apps/nshlib/nsh_parse.c:2803-2806 | an input: for `while 'a'` at the start of a line, 9 is recorded instead of 0 |
| `Backslash.NshStrchr` | apps/nshlib/nsh_parse.c:1121-1145 | the first unquoted occurrence, the terminator included, or none exactly when every occurrence is quoted or a backslash is sought |
| `Backslash.Eliminate` | apps/nshlib/nsh_parse.c:1288-1306 | everything after the character moves down by one, terminator included |
| `Backslash.NshDequote` | apps/nshlib/nsh_parse.c:1269-1315 | in place: the string becomes itself without its unquoted backslashes; nothing past its old terminator changes; it ends |
| `Backslash.DequotedEscape` | apps/nshlib/nsh_parse.c:1269-1315 | removing backslashes undoes putting one before each backslash and delimiter |
| `Backslash.EscapedIsQuoted` | apps/nshlib/nsh_parse.c:1121-1145 | in escaped text every delimiter is quoted, and what follows it is not |
| `Backslash.FirstDelimiter` | apps/nshlib/nsh_parse.c:1121-1145 | the first unquoted delimiter of escaped text followed by a delimiter is exactly at its end |
| `Backslash.RoundTrip` | apps/nshlib/nsh_parse.c:1269-1315 | escape, find, cut and dequote in one buffer give back the text |
| `Backslash.QuotedIsOdd` | apps/nshlib/nsh_parse.c:1121-1145 | a character is quoted if and only if an odd number of backslashes stands right before it |
| `Backslash.DequotedGrows` | apps/nshlib/nsh_parse.c:1269-1315 | dequoting any string drops exactly the backslashes that are not themselves quoted, a last one included |
| `VariableStore.StopsInside` | apps/nshlib/nsh_vars.c:46-62 | the comparison loop stops inside both strings if and only if the name is not the whole stored pair; a name without `=` never is a pair |
| `VariableStore.NamesStayInside` | apps/nshlib/nsh_vars.c:100-103 | a lookup of a name without `=` never leaves the strings, whatever is stored |
| `VariableStore.RunsPastTheEnd` | apps/nshlib/nsh_vars.c:46-62 | an input: after `set A 1`, a lookup of `A=1` agrees with the stored pair up to and including both terminators |
| `VariableStore.CmpName` | apps/nshlib/nsh_vars.c:46-62 | for any name that is not the pair itself: true exactly when the pair begins with the name and a `=` |
| `VariableStore.Console.FindVar` | apps/nshlib/nsh_vars.c:88-108 | the offset of the first pair that begins with the name and a `=`, or nothing exactly when there is none, for any name whose lookup stays inside the strings |
| `VariableStore.Console.RemoveVar` | apps/nshlib/nsh_vars.c:126-165 | exactly that binding leaves the buffer |
| `VariableStore.Console.GetVar` | apps/nshlib/nsh_vars.c:194-218 | the value in that pair |
| `VariableStore.Console.SetVar` | apps/nshlib/nsh_vars.c:225-288 | the pair found goes and the new one is appended; without memory only the removal stands |
| `VariableStore.Console.UnsetVar` | apps/nshlib/nsh_vars.c:296-351 | the pair found goes; fails exactly when a shrunken buffer cannot be moved |
| `VariableStore.Console.ForEach` | apps/nshlib/nsh_vars.c:373-405 | each pair once, in buffer order, up to the callback's stop |
| `Variables.MatchesIff` | apps/nshlib/nsh_vars.c:46-62 | a name matches the pair of that name and, if it has a `=`, the pairs it reaches into, and no other |
| `Variables.HarmlessIff` | apps/nshlib/nsh_vars.c:225-351 | for any name: an operation leaves the value of every other name alone if and only if the name has no `=`, or one of the other listed conditions on the store holds |
| `Variables.SetWithEquals` | apps/nshlib/nsh_vars.c:225-288 | an input: with `A=B=C` stored, setting `A=B` to `D` replaces the variable `A` |
| `Variables.ApplyIsMapUpdate` | apps/nshlib/nsh_vars.c:225-351 | every operation acts on the byte buffer's bindings as the map operation of the same name, and on no other name |
| `Variables.RunIsSurvivors` | apps/nshlib/nsh_vars.c:225-351 | after any history the buffer holds exactly the bindings that survive, in the order they were last set, each name once |
| `EnvCommands.TrimIsTrimmed` | apps/nshlib/nsh_fsutils.c:531-552 | the text without the white space around it |
| `EnvCommands.SpaceIs` | apps/nshlib/nsh_fsutils.c:536-546 | white space is the six characters that isspace knows in the C locale |
| `EnvCommands.TrimSpaces` | apps/nshlib/nsh_fsutils.c:531-552 | in place |
| `EnvCommands.DisjointKeptIff` | apps/nshlib/nsh_envcmds.c:495-654 | a command keeps the names of the two stores disjoint unless it is a set of a name with `=` whose part before the `=` is exported or has a pair the name does not match; so every command on a name without `=` does |
| `EnvCommands.SessionKeepsDisjoint` | apps/nshlib/nsh_envcmds.c:495-654 | so does any session in which no command is of that kind |
| `EnvCommands.SessionDisjointIff` | apps/nshlib/nsh_envcmds.c:495-654 | for every session, whatever names it uses: the stores are disjoint throughout if and only if no command is of that kind |
| `EnvCommands.LookupOrderImmaterial` | apps/nshlib/nsh_parse.c:1215-1261 | so, after the test for `?`, the order in which the two stores are asked cannot matter |
| `EnvCommands.OthersUntouched` | apps/nshlib/nsh_envcmds.c:495-654 | a command changes what its own name expands to and no other name |
| `EnvCommands.OthersUntouchedIff` | apps/nshlib/nsh_envcmds.c:495-654 | for every command, whatever its name: the other names keep what they expand to if and only if the name has no `=`, or begins with `?=`, or the part before the `=` keeps what it expands to, by cases on the command and the store |
| `EnvCommands.SetIsVisible` | apps/nshlib/nsh_parse.c:1215-1261 | after set the trimmed value is visible; if memory fails, the source's loss or keeping of the old value; `$?` stays the exit status |
| `EnvCommands.SetShowsIff` | apps/nshlib/nsh_parse.c:1220-1232 | with memory enough, a set shows the trimmed value if and only if the name is not `?` or the value happens to be the exit status |
| `EnvCommands.SetOfStatus` | apps/nshlib/nsh_parse.c:1220-1232 | an input: `set ? 5` stores a variable that `$?` does not show |
| `EnvCommands.UnsetIsGone` | apps/nshlib/nsh_envcmds.c:560-593 | after unset the name, with `=` or without, is no shell variable, and shows nothing unless unsetenv fails and leaves an environment variable to show; other environment variables stay |
| `EnvCommands.ExportKeepsValue` | apps/nshlib/nsh_envcmds.c:601-654 | export without a value keeps the visible value if and only if the name is `?`, or was not already an environment variable with a non-empty value |
| `EnvCommands.ExportShows` | apps/nshlib/nsh_envcmds.c:601-654 | for every export, of any name, with a value or without, successful or not: the given text shows as it is, or without one what the shell variable held; if setenv fails both stores are as before; `$?` is the exit status in any case |
| `EnvCommands.ExitStatusShown` | apps/nshlib/nsh_parse.c:282-283 | `$?` shows 1 if and only if the last command failed, and 0 if and only if it did not |
| `EnvCommands.ExportTwiceEmpties` | apps/nshlib/nsh_envcmds.c:609-627 | a concrete name whose value a second export empties |
| `EnvCommands.Shell.CmdSet` | apps/nshlib/nsh_envcmds.c:495-548 | on the byte buffer and the environment: the specification's state, and the exact result |
| `EnvCommands.Shell.CmdUnset` | apps/nshlib/nsh_envcmds.c:560-593 | likewise |
| `EnvCommands.Shell.CmdExport` | apps/nshlib/nsh_envcmds.c:601-654 | likewise |
| `AliasProofs.StepKeeps` | apps/nshlib/nsh_alias.c:74-225 | every operation keeps the invariant: each entry in exactly one of live and free list, live names distinct and non-empty, free entries blank, and an entry marked exactly when it is in exactly one list of a parse in progress |
| `AliasProofs.RunKeeps` | apps/nshlib/nsh_alias.c:74-225 | over every history from the blank table; once the pool is set up it is never set up again |
| `AliasProofs.InitKeeps` | apps/nshlib/nsh_alias.c:74-94 | alias_init changes nothing once an entry is queued anywhere |
| `AliasProofs.ListHasRoom` | apps/nshlib/nsh_parse.c:400-413 | nsh_alist_add never meets a full list |
| `AliasProofs.ExpandMarks` | apps/nshlib/nsh_parse.c:1153-1207 | an expanded token marks an entry that was in no list, so no alias is expanded twice while live |
| `AliasProofs.EndFrees` | apps/nshlib/nsh_parse.c:421-443 | freeing a list unmarks its entries, removes from the table exactly those whose removal was pending, and leaves all other entries alone |
| `AliasProofs.SaveUpdates` | apps/nshlib/nsh_alias.c:156-192 | saving an existing alias replaces its value in its place |
| `AliasProofs.SaveAppends` | apps/nshlib/nsh_alias.c:156-192 | saving a new one appends it, or fails with the table unchanged; it succeeds exactly when an entry is free and memory suffices |
| `AliasProofs.NothingChanges` | apps/nshlib/nsh_alias.c:156-160 | saving under an empty name is refused, and unalias of a name that is not there does nothing: the table is as before |
| `AliasView.DeleteView` | apps/nshlib/nsh_alias.c:120-150 | removal takes the binding out of its place and leaves names, values and order of the others; an entry being expanded stays as it is |
| `AliasView.UnaliasView` | apps/nshlib/nsh_alias.c:120-150 | the same for unalias of a name |
| `AliasView.RemoveAllView` | apps/nshlib/nsh_alias.c:212-225 | alias_removeall keeps, in order, exactly the bindings that are being expanded |
| `AliasView.EndView` | apps/nshlib/nsh_parse.c:421-443 | the end of a parse takes out, of the bindings in their order, exactly those it expanded whose removal is pending |
| `AliasView.SaveWithoutValue` | apps/nshlib/nsh_alias.c:156-192 | a save of an existing name without memory for its value: the binding goes, or, while it is being expanded, stays without a value and with its removal pending |
| `AliasInUse.ValueKeptIff` | apps/nshlib/nsh_parse.c:1167-1178 | while the parse that expanded an alias is in progress, whatever is done meanwhile, the alias keeps its name, and its value is freed if and only if some operation saves that name |
| `AliasInUse.SavedWhileInUse` | apps/nshlib/nsh_alias.c:166-171 | an input: `u` stands for `source`, and the file sourced by the line `u f` defines `u` again |
| `AliasPending.PendingIsLost` | apps/nshlib/nsh_alias.c:120-150 | an alias whose removal is pending is gone when the parse that expanded it ends, whatever commands and parses come in between, saving it again included |
| `AliasPending.SavedSurvives` | apps/nshlib/nsh_alias.c:156-192 | an alias saved while any parse in progress, however far out, is expanding it: the save succeeds, and the alias survives the end of that parse if and only if its removal was not pending |
| `AliasPending.SourcedRedefinition` | apps/nshlib/nsh_alias.c:156-192 | a run from the blank table: the alias `u` stands for `source f`, and `f` removes `u` and defines it again; the second definition is reported as saved and is gone at the end |
| `AliasProofs.FindIsFirst` | apps/nshlib/nsh_alias.c:100-114 | the first live entry of that name, or nothing exactly when there is none |
| `AliasProofs.AliasFindIs` | apps/nshlib/nsh_alias.c:246-269 | the live entry of that name if it has a value and is not being expanded, and only then |
| `AliasTable.Pool.AliasInit` | apps/nshlib/nsh_alias.c:74-94 | in place, the specification's table |
| `AliasTable.Pool.FindEntry` | apps/nshlib/nsh_alias.c:100-114 | the specification's entry |
| `AliasTable.Pool.DeleteEntry` | apps/nshlib/nsh_alias.c:120-150 | in place: moved to the free list, or only marked while it is being expanded |
| `AliasTable.Pool.AliasSave` | apps/nshlib/nsh_alias.c:156-192 | in place, the specification's table and result |
| `AliasTable.Pool.RemoveAll` | apps/nshlib/nsh_alias.c:212-225 | in place, the specification's table |
| `AliasTable.Pool.NshAliasFind` | apps/nshlib/nsh_alias.c:246-269 | the specification's entry |
| `AliasTable.Pool.AliasExpand` | apps/nshlib/nsh_parse.c:1153-1207 | in place: the entry marked and put on the innermost list, its value returned |
| `AliasTable.Pool.ListFree` | apps/nshlib/nsh_parse.c:421-443 | in place, the specification's table |
| `RunLength.QuantizeIsLeftmostNearest` | apps/tools/bitmap_converter.py:48-57 | both branches give the leftmost of the nearest palette entries |
| `RunLength.DistanceIsEuclidean` | apps/tools/bitmap_converter.py:53-55 | comparing distances is comparing the lengths of the differences as vectors |
| `RunLength.GreedyIsLeast` | apps/tools/bitmap_converter.py:60-80 | no list of runs of length 1 to 255 for the same row is shorter than the greedy one |
| `RunLength.TightIsGreedy` | apps/tools/bitmap_converter.py:60-80 | an encoding whose runs are followed by their own colour only when full is as short as the greedy one |
| `RunLength.EncodeRow` | apps/tools/bitmap_converter.py:60-80 | decodes to the quantized row, all runs in 1 to 255, and of least length |
| `HelpLayout.OnePlace` | apps/nshlib/nsh_command.c:695-712 | name k belongs in line k mod rows and column k div rows, and in no other place of the grid |
| `HelpLayout.MostPerLine` | apps/nshlib/nsh_command.c:684-693 | a line has as many columns as fit in 80 characters, and one if not even one does |
| `HelpLayout.FewestRows` | apps/nshlib/nsh_command.c:695-697 | there are as few lines as hold all names |
| `HelpLayout.LineFrame` | apps/nshlib/nsh_command.c:706-731 | every line begins with four blanks and ends in a newline |
| `HelpLayout.NameOnLine` | apps/nshlib/nsh_command.c:703-731 | at each place stands the name that belongs there, with blanks behind it up to the next column |
| `HelpLayout.FitsIff` | apps/nshlib/nsh_command.c:667-731 | every line, newline included, fits in the 85 characters of the buffer if and only if no name is longer than 76 |
| `HelpLayout.Tight` | apps/nshlib/nsh_command.c:667-669 | one name of 76 characters fills the buffer exactly |
| `HelpLayout.WriteCell` | apps/nshlib/nsh_command.c:714-726 | name and blanks at the offset, what is before unchanged |
| `HelpLayout.HelpCmdlist` | apps/nshlib/nsh_command.c:656-732 | the nested loops over one reused buffer write exactly those lines, in order |
| `HexDump.Hexdump` | apps/nshlib/nsh_dbgcmds.c:413-492 | for every way the reads cut the file, the bytes dumped are exactly those of the window, each dump's title is its place in the file, and a read error is reported exactly when the window was not yet filled |
| `HexDump.DumpBuffer` | apps/nshlib/nsh_dbgcmds.c:288-331 | the bytes printed by one call; none for a negative length |
| `Rotation.RowDots` | apps/examples/bmi160_orientation/orientation_calc.c:48-73 | the lengths of the rows and the angles between them, for every quaternion |
| `Rotation.OrthonormalIff` | apps/examples/bmi160_orientation/orientation_calc.c:48-73 | the rows are orthonormal if and only if the quaternion is a unit or has no vector part |
| `Rotation.UnitIsRotation` | apps/examples/bmi160_orientation/orientation_calc.c:48-73 | a unit quaternion gives orthonormal rows, determinant one, and keeps every inner product |
| `Rotation.LengthsKeptIff` | apps/examples/bmi160_orientation/orientation_calc.c:48-73 | all lengths are kept if and only if the quaternion is a unit or has no vector part |
| `Rotation.WorldKeepsLength` | apps/examples/bmi160_orientation/position_estimator.c:85-95 | the change of frame keeps the length of the reading less its bias |
| `Quaternions.Sandwich` | apps/examples/bmi160_orientation/orientation_calc.c:48-73 | for every quaternion q and vector v, q v q* in Hamilton's product has no scalar part, and its vector part is the matrix applied to v, plus v times the squared norm less one |
| `Quaternions.WorldIsProduct` | apps/examples/bmi160_orientation/position_estimator.c:85-95 | for a unit q the change of frame turns v, the reading less its bias, into q v q* |
| `Quaternions.WorldComposes` | apps/examples/bmi160_orientation/position_estimator.c:85-95 | so the change of frame by a product of unit quaternions is the one by its second factor followed by the one by its first |
| `Quaternions.TurnsForward` | apps/examples/bmi160_orientation/position_estimator.c:93-95 | about the third axis it turns from the first axis towards the second |
| `Quaternions.ProductTable` | apps/examples/bmi160_orientation/position_estimator.c:89-91 | the product is Hamilton's: multiplying from the left by each of the four units |
| `Quaternions.Associative` | apps/examples/bmi160_orientation/position_estimator.c:89-91 | the product is associative |

## Left out

- Scripts with several commands on a line and loops on such lines: positions in a script are line numbers. The byte offset within a line is in `CommandLine` and `RoundTrip`, and the meaning theorems hold for scripts whose loop lines have no quote before the end of the condition.
- Nested source scripts inside a loop, back-quoted commands, redirection and `&` after tokenising, the limit on the number of arguments, and nsh_nice.
- Tokenizer.NshArgument: a word is its text before expansion together with the flag that forbids expanding it; `$` expansion, whether an expanded value is split again, aliases and CONFIG_NSH_QUOTE are not part of it.
- CommandLine.NshParse: what a command does is an arbitrary status and an arbitrary setting of np_jump.
- AliasTable.Pool.AliasExpand: marks the entry and returns its value; putting a value of several words back into the command line is not modelled.
- ScriptWritten.WrittenOnOneLine: a loop keyword behind `do`, and any keyword behind `then` and `else`, is excluded; `KeywordBehindKeyword` says what it does there.
- ParserObject.Parser.Script: stops after a given number of lines, because a script may run for ever; the theorems are about every number.
- ParserObject.Parser.Execute: what a simple command does beyond its status is not modelled.
- ScriptTheorems.ScriptMeansProgram: like ScriptWritten.WrittenMeansProgram, covers the scripts on which the code delivers the structured meaning; the two shapes it leaves out are those of `SkippedLoopRunsCondition` and `BreakKeepsFrames`.
- A failing lseek in `done`, and scripts read from something that cannot seek.
- PipelineObject.Pipeline: the two threads are program counters of one object whose methods are called in the order of a run; creating and joining threads are steps of it.
- The metrics path, frame pacing, statistics and log output of the camera threads; the packer is an arbitrary success with a packet or failure, whose source is not part of this model. Error counters are unbounded.
- A failing pthread_join, and failures of mutex and condition variable initialisation.
- The addresses of buffers and the size field of the pool; a packet is the filled part of a buffer.
- Variables.ApplyIsMapUpdate: for names without `=`, which the C code does not check; `HarmlessIff` is the exact condition for all names.
- Variables.RunIsSurvivors: for histories of names without `=`; with one, single operations are covered by `HarmlessIff`.
- EnvCommands.OthersUntouched: for names without `=` in the command and in the lookup; `OthersUntouchedIff` is the exact condition for all commands.
- EnvCommands.LookupOrderImmaterial: for a lookup of a name without `=`.
- EnvCommands.ExportKeepsValue: for names without `=`.
- EnvCommands.SetIsVisible: for names without `=`; what others show is `OthersUntouchedIff`.
- EnvCommands.Shell.CmdSet: without the option form of set (`-e`, `-x`).
- VariableStore.Console: a lookup must stay inside its strings, which `StopsInside` and `RunsPastTheEnd` are about; sizes are unbounded, the source uses int.
- setenv, unsetenv and getenv are a map with a success flag, because their code is not part of this model.
- echo and its str_escape.
- The queue library under the alias lists is not part of this model; the lists are sequences of entry numbers.
- The printed output of cmd_alias and cmd_unalias, and their argument checks.
- RunLength.EncodeRow: an empty palette, on which the Python code raises, is excluded.
- HelpLayout.HelpCmdlist: assumes what `FitsIff` shows to be necessary, that the longest name and the tab fit in a line; names and buffer are characters without the terminator that is overwritten next.
- help_builtins: its number of rows counts entries it later skips.
- HexDump.Hexdump: opening the file, allocation, and the text layout of a dump; offsets are unbounded.
- Rotation.World: the estimator's change of frame is a function of values; its update of bias, velocity and position in place is not modelled.
- Rotation: exact reals instead of floating point; bias calibration, gravity, integration and the velocity threshold.
- Network, routing, mount, filesystem, process, login, telnet and codec commands; the camera and USB drivers; Python executors.

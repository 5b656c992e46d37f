# Verified models of seven systems programs

This project models, in Dafny, the parts of the repository whose correctness depends on
interleavings, on how a byte stream is cut up, or on arrays that are rewritten in place:

* **The bounded buffer** of `hw6-concurrency/sbuf.c` (`SbufMachine`, `SbufRuns`, `SbufOrder`, `SbufObject`).
  Any number of threads run any programs of inserts and removes; every semaphore operation, every
  load and store of an index and every array access is a step of its own, so that the mutex matters.
* **Job control** in `shell-lab2/tsh.c` (`JobTable`, `JobControl`, `JobFates`, `JobCommands`, `JobObject`). The job list is an
  array updated in place; `eval`, `do_bgfg` and `waitfg` are a program counter, the SIGCHLD handler
  is a second one that may start between any two statements while the signal is unblocked, and the
  kernel is a map from unreaped children to what `waitpid` would report of them.
* **Buffered input and output** in `hw6-concurrency/csapp.c` and the `echo` loop on top of it
  (`Kernel`, `Retries`, `Rio`, `Echo`). The kernel follows an arbitrary script of short counts, interrupts,
  errors and end of file.
* **The pipeline shell** `shell-lab1/tsh.c` (`Tokenizer`, `CommandLines`, `PipelineArgs`, `PipelineSlots`, `PipelineWiring`): from the
  line that was typed, through the in-place tokenizer and pipeline splitter, to the descriptor table
  that every process of the pipeline executes with.
* **The epoll proxy** `proxy-lab2/proxylab2-handout/proxy.c` (`Sockets`, `Proxy`, `ProxyRequest`,
  `ProxyMessage`): one connection, resumed by an event at a time; the request it rebuilds; and what
  a server reads in that request.
* **The DNS name codec** of `dns-lab/resolver.c` (`Dns`, `DnsLimits`, `DnsWalk`), against RFC 1035.
* **`sio_ltoa`** of `hw6-concurrency/csapp.c` (`Sio`).

Code that updates objects or arrays is a class or a method over arrays, specified by functions on
values (those of the C library's string functions are in `CStrings`); what the programs promise is
then proved about those functions, or as invariants of every run. Loops of the source are loops here, with the same branches and constants.

Several obvious claims are false of this code. The exact conditions are proved instead, and the
failures are shown to be reached:

* A run of the buffer that can go no further has finished exactly when the number of inserts is
  between the number of removes and that number plus n (`SbufRuns.CompletionIff`), if each thread
  only inserts or only removes; if not, it depends on the schedule (`SbufOrder.MixedDependsOnSchedule`).
* `addjob` keeps job ids distinct exactly when the id it is about to issue is free
  (`JobTable.AddedJidsIff`, with `JobTable.WrapRepeatsAJid` as a history in which it is not;
  `JobCommands.StepInOrderIff` for the whole shell), and it fails exactly on the seventeenth unreaped child (`JobControl.ListFullIff`).
* `fg` waits for ever exactly when the job's slot is empty or the handler deletes the job between
  the statement that sets its state and the one that reads its pid (`JobFates.FgWaitsOnZeroIff`,
  `JobFates.FgCanReturnIff`), and there is a run in which it does (`JobFates.ZeroWaitReached`).
* The handler dereferences a missing job exactly when a child that is not listed stops
  (`JobFates.CrashIff`); any such child can bring that about (`JobFates.UnlistedCanCrash`), and
  seventeen children suffice (`JobFates.CrashReached`).
* The proxy delivers a response exactly up to the buffer size and what the client's socket takes
  without blocking (`Proxy.Connection.Serve`), and it gets that far if the other sockets take and give
  enough, however often they would have blocked (`Proxy.ReadyWhen`).
* A name survives being encoded exactly when none of its labels is longer than 63 bytes
  (`DnsLimits.EncodedDecodesIff`); the code does not look at their lengths.
* `grabCNames` prints the name that RFC 1035 assigns exactly when no label byte looks like a length
  and no length like a character, 46, a dot, excepted after the first label (`DnsWalk.ShownIsNameIff`, `DnsWalk.PrintedIffSurvives`).
* A number printed by `sio_ltoa` reads back, to a reader of signed numbers, exactly when it is not
  negative (`Sio.PrintedReadsIff`).

Where the code and its comments disagree the model follows the code: the comment above `parseargs`
says a redirection slot is set when it is `>= 0`, while `eval` tests `> 0`; `PipelineArgs.SlotsArePlaced`
proves that the two tests agree.

To verify the project: `dafny verify dfyconfig.toml`.

## Model

| member | source | states |
|---|---|---|
| SbufMachine.Step | hw6-concurrency/sbuf.c:27-48 | one statement of one thread, where a semaphore operation, a load, a store and an array access are each one step; the buffer keeps its size and no thread appears or disappears |
| SbufMachine.InitInv | hw6-concurrency/sbuf.c:6-14 | a fresh buffer with any threads satisfies the invariant |
| SbufMachine.MutualExclusion | hw6-concurrency/sbuf.c:30-45 | two threads are never both between their wait on and their post to the mutex |
| SbufMachine.Room | hw6-concurrency/sbuf.c:29-43 | a producer holding a slot ticket finds a free cell, a consumer holding an item ticket finds a value |
| SbufMachine.NextIndex | hw6-concurrency/sbuf.c:31-44 | the index a thread uses is the next one, although it was loaded and stored in separate steps |
| SbufMachine.StepInv | hw6-concurrency/sbuf.c:27-48 | every step of every thread keeps the semaphore counts, the loaded indices and the cell contents right |
| SbufMachine.RunInv | hw6-concurrency/sbuf.c:27-48 | so does every run |
| SbufRuns.StepRefinesQueue | hw6-concurrency/sbuf.c:27-48 | each step is one atomic enqueue into a queue shorter than n, one atomic dequeue from a nonempty queue, or leaves the queue alone |
| SbufRuns.BufferHoldsQueue | hw6-concurrency/sbuf.c:31-44 | outside the lock the cells from front+1 to rear, round the end, are the waiting values in order, and rear-front counts items, unannounced producers and untaken consumers |
| SbufRuns.RunIsFifo | hw6-concurrency/sbuf.c:27-48 | in every state of every schedule the values taken are a prefix of the values stored, at most n wait, slots + items + producers holding a slot ticket + consumers holding an item ticket = n, and at most one thread is inside the lock |
| SbufRuns.RunConserved | hw6-concurrency/sbuf.c:27-48 | along every run no value is lost, duplicated or given to two threads |
| SbufRuns.RunBudgets | hw6-concurrency/sbuf.c:27-48 | each step uses up one unit of the threads' work, and stores and reads are accounted for |
| SbufRuns.StuckOutside | hw6-concurrency/sbuf.c:27-48 | when no thread can move, none is inside a call and the mutex is free: no deadlock inside the buffer |
| SbufRuns.CompletionIff | hw6-concurrency/echoservert_pre.c:61-75 | for producers that insert I values and consumers that remove R, a run that can go no further has finished every call if and only if R <= I <= R + n |
| SbufRuns.RunsAreBounded | hw6-concurrency/sbuf.c:27-48 | no run is longer than the steps its programs contain, and a run of that length has finished |
| SbufRuns.FinishedExchange | hw6-concurrency/sbuf.c:27-48 | after as many removes as inserts the consumers hold exactly the inserted values and every slot is free again |
| SbufOrder.ProgramOrder | hw6-concurrency/sbuf.c:27-48 | in every state of every run the stored values are an interleaving of the threads' inserts, each thread's in program order and completed by the ones it still owes; the taken values are an interleaving of what each thread got, in the order it got them; and the latter is a prefix of the former |
| SbufOrder.MixedDependsOnSchedule | hw6-concurrency/sbuf.c:27-48 | two threads that both insert and remove finish under one schedule and are stuck for ever under another |
| SbufObject.SharedBuffer.constructor | hw6-concurrency/sbuf.c:6-14 | sbuf_init yields the machine's initial state |
| SbufObject.SharedBuffer.Advance | hw6-concurrency/sbuf.c:27-48 | updating the record, the array and the semaphores in place is the machine's step |
| JobTable.MaxJid | shell-lab2/tsh.c:550-559 | an upper bound of all jids that is attained unless it is 0 |
| JobTable.Slot | shell-lab2/tsh.c:618-628 | the first slot holding a pid, or the end of the list |
| JobTable.AddedPids | shell-lab2/tsh.c:562-586 | adding a new pid succeeds exactly if a slot is free; it then fills one free slot with the job and leaves the others alone, adds exactly that pid and keeps pids distinct; if it fails nothing changes |
| JobTable.DeletedPids | shell-lab2/tsh.c:589-604 | deleting a pid succeeds exactly if it is listed, empties its slot, leaves every other slot alone and removes exactly that pid; if it fails nextjid stays |
| JobTable.PidsCount | shell-lab2/tsh.c:569-584 | with distinct pids a slot is free exactly if fewer jobs than slots are listed |
| JobTable.AddedJidsIff | shell-lab2/tsh.c:574-576 | addjob keeps live jids distinct if and only if the jid it issues is not in use |
| JobTable.AddedInStepIff | shell-lab2/tsh.c:574-576 | from nextjid = maxjid+1 addjob issues a fresh jid, and nextjid stays maxjid+1 if and only if that jid is below MAXJOBS; if not it starts again at 1 |
| JobTable.DeletedInStep | shell-lab2/tsh.c:597-600 | every successful deletejob restores nextjid = maxjid+1 and keeps jids distinct |
| JobTable.ReplayInStep | shell-lab2/tsh.c:550-604 | for every history of adds and deletes, until a jid of MAXJOBS or more is issued, nextjid = maxjid+1 and live jids are distinct |
| JobTable.WrapRepeatsAJid | shell-lab2/tsh.c:574-576 | a history in which, after the counter wraps, two live jobs share jid 1 |
| JobTable.JobList.constructor | shell-lab2/tsh.c:542-547 | initjobs clears all sixteen slots |
| JobTable.JobList.Largest | shell-lab2/tsh.c:550-559 | the loop computes the largest jid |
| JobTable.JobList.AddJob | shell-lab2/tsh.c:562-586 | the whole new list, nextjid and result, with its error cases |
| JobTable.JobList.DeleteJob | shell-lab2/tsh.c:589-604 | the whole new list, nextjid and result, with its error cases |
| JobTable.JobList.FgPid | shell-lab2/tsh.c:607-615 | the pid of the first foreground job, or 0 if there is none |
| JobTable.JobList.GetJobPid | shell-lab2/tsh.c:618-628 | the first slot with the pid, or none |
| JobTable.JobList.GetJobJid | shell-lab2/tsh.c:631-642 | the first slot with the jid, or none |
| JobTable.JobList.Pid2Jid | shell-lab2/tsh.c:645-657 | the jid of the first slot with the pid, or 0 |
| JobControl.MainStep | shell-lab2/tsh.c:194-457 | one statement of eval, do_bgfg or waitfg touches neither the handler nor the children; what the statements come to is stated by the rows of JobCommands |
| JobControl.HandleStep | shell-lab2/tsh.c:475-489 | one report handled touches neither the main flow nor the signal mask |
| JobControl.StepInv | shell-lab2/tsh.c:177-491 | every statement, signal, report and change of a child keeps the invariant |
| JobControl.RunInv | shell-lab2/tsh.c:177-491 | so does every run |
| JobControl.ListIsChildren | shell-lab2/tsh.c:194-221 | whenever SIGCHLD is unblocked and no handler is running the listed pids are distinct and are exactly the unreaped children; between fork and addjob only the new child is missing |
| JobControl.ListFullIff | shell-lab2/tsh.c:562-586 | addjob finds the list full if and only if there are more than MAXJOBS unreaped children |
| JobControl.WithinLimitIsSafe | shell-lab2/tsh.c:475-479 | with at most MAXJOBS unreaped children the handler never dereferences a missing job |
| JobControl.AtMostOneForeground | shell-lab2/tsh.c:40 | in every state of every run at most one job is in the foreground, and none is at the prompt |
| JobControl.WaitOnZeroNeverReturns | shell-lab2/tsh.c:451-457 | from there no run ever reaches the prompt again |
| JobControl.WaitReturns | shell-lab2/tsh.c:451-457 | once the job has stopped or gone, waitfg of a nonzero pid returns within MAXJOBS + 2 statements however it is interrupted |
| JobFates.FgWaitsOnZeroIff | shell-lab2/tsh.c:401-437 | over any events between the statement of fg that sets the state and the one that reads the pid, waitfg is called with pid 0 if and only if the slot was empty or the handler deleted that very job in between; otherwise with the job's pid |
| JobFates.WaitCanReturn | shell-lab2/tsh.c:451-491 | from a waitfg of a nonzero pid there is always a run back to the prompt: the job dies, the handler drains the reports, fgpid finds nothing |
| JobFates.FgCanReturnIff | shell-lab2/tsh.c:401-457 | so the prompt can be reached again from such an fg if and only if the job was not deleted first |
| JobFates.ZeroWaitReached | shell-lab2/tsh.c:401-491 | a run from the start of the shell that ends in a waitfg of pid 0, from which no run returns |
| JobFates.CrashIff | shell-lab2/tsh.c:475-478 | the handler dereferences a missing job if and only if it is told that a child that is not listed has stopped |
| JobFates.UnlistedCanCrash | shell-lab2/tsh.c:475-478 | from any state with a living child that is neither listed nor about to be, whatever the shell is doing, there is a run in which the handler crashes |
| JobFates.CrashReached | shell-lab2/tsh.c:475-478 | such a run from the start of the shell, with seventeen children |
| JobCommands.ReportHandled | shell-lab2/tsh.c:475-489 | a handled report that a child has stopped puts its slot into ST and a report that it has died empties it; no other slot is touched |
| JobCommands.LaunchLists | shell-lab2/tsh.c:194-221 | however the run is interleaved, after the two statements and the fork of a launch the child is listed under its command line, in state BG if the background was asked for and FG if not, unless the list was full |
| JobCommands.AddLists | shell-lab2/tsh.c:214-221 | its slot was free, its jid is nextjid, and the other slots are as they were |
| JobCommands.ForegroundWaits | shell-lab2/tsh.c:177-227 | in no run is the shell back at the prompt after a foreground launch before a report about the new child has been handled: until then the child is about to be listed, or it is listed in FG and eval waits for it |
| JobCommands.ForegroundReturns | shell-lab2/tsh.c:226-491 | once it is listed, there is a run on which eval gets back to the prompt |
| JobFates.LaunchOne | shell-lab2/tsh.c:194-227 | an uninterrupted background launch ends at the prompt with the child listed in BG |
| JobCommands.StepInOrderIff | shell-lab2/tsh.c:177-604 | a step of the shell keeps live jids distinct and nextjid = maxjid+1 if and only if it is not an addjob into a free slot with nextjid at MAXJOBS or above |
| JobCommands.RunInOrder | shell-lab2/tsh.c:177-604 | so in every run without such an addjob %jid names at most one job |
| JobCommands.CommandAlone | shell-lab2/tsh.c:378-439 | fg or bg by jid or pid, uninterrupted: if no slot has the id the shell is at the prompt and nothing has changed; if not, the first such slot is in FG and waitfg is called with its pid, or it is in BG and the shell is at the prompt, and every other slot is as it was |
| JobCommands.CommandPursued | shell-lab2/tsh.c:378-439 | with the handler interleaved: every slot up to the one found was looked at and did not have the id at that moment, the one found did, and the statement after it sets that slot to FG or BG as was asked and goes on to read its pid or to the prompt |
| JobObject.Shell.Proceeds | shell-lab2/tsh.c:194-457 | the statements of the main flow, on the job list in place, are the machine's |
| JobObject.Shell.Handles | shell-lab2/tsh.c:475-489 | the handler's body, on the job list in place, is the machine's |
| JobObject.Shell.Advance | shell-lab2/tsh.c:177-491 | every event takes the shell from one state of the machine to the next and keeps the invariant |
| Rio.LineLenIsLeastEnd | hw6-concurrency/csapp.c:860-882 | the length of a line is the least nonzero one that ends at a newline, at the limit or at end of file |
| Rio.LinesConcat | hw6-concurrency/csapp.c:860-882 | cutting a stream into lines and joining them again gives the stream |
| Rio.ReadN | hw6-concurrency/csapp.c:738-757 | whatever the kernel does, the bytes read are the next of the stream; it fails exactly if the loop meets an error other than EINTR before it is through, and if not it has read exactly min(n, remaining) |
| Rio.WriteN | hw6-concurrency/csapp.c:764-781 | whatever the kernel does, the bytes received are a prefix of the buffer; it fails exactly if the loop meets an error other than EINTR, and if not all n were received |
| Retries.ReadingFailsIff | hw6-concurrency/csapp.c:738-757 | such a read loop fails if and only if, interrupted calls left aside, the calls end in one that fails, before they have moved n bytes and before one of them has met end of file; it has then read all that they could move |
| Retries.WritingFailsIff | hw6-concurrency/csapp.c:764-781 | such a write loop fails if and only if, interrupted calls left aside, the calls end in one that fails before they have moved n bytes |
| Retries.ReadingAll | hw6-concurrency/csapp.c:738-757 | if it does not fail it has read min(n, remaining) bytes, and with no error but EINTR in the script it does not fail |
| Rio.Buffered.constructor | hw6-concurrency/csapp.c:826-831 | the logical stream of a new rio_t is what the descriptor will deliver |
| Rio.Buffered.Refill | hw6-concurrency/csapp.c:798-809 | refilling never changes the logical stream, and gives up only at end of file or on an error other than EINTR |
| Rio.Buffered.Read | hw6-concurrency/csapp.c:794-819 | copied bytes followed by what is left is the stream before the call, also after EINTR and after an error; with bytes buffered it delivers min(n, buffered) of them without a system call, a short count leaves the buffer empty, and it fails exactly if the buffer is empty and an error comes before any byte and before end of file |
| Rio.Buffered.ReadNb | hw6-concurrency/csapp.c:838-853 | exactly min(n, remaining) bytes, independent of chunking; it fails exactly if an error comes before n bytes have, and the stream is conserved even then |
| Rio.Buffered.ReadLineB | hw6-concurrency/csapp.c:860-882 | the shortest of through the next newline, maxlen-1 bytes and up to end of file, independent of chunking, with its length returned and a NUL after it; it fails exactly if an error comes before the line is through |
| Echo.EchoLine | hw6-concurrency/echo.c:13-16 | one turn reads one line and writes all of it back, or ends at end of file, or ends the process exactly if the read or the write of the line fails |
| Echo.EchoLoop | hw6-concurrency/echo.c:7-18 | echo terminates; what it wrote is always a prefix of what the client sent, and with no hard error all of it, line by line |
| Echo.OneCall | hw6-concurrency/csapp.c:794-882 | what a call put at the start of its caller's buffer, followed by what is left, is the stream before; without an error it reports as many bytes as it put there, and as many as it should |
| Echo.AnyClient | hw6-concurrency/csapp.c:794-882 | for any mixed sequence of calls on one rio_t, errors included, what lies in the callers' buffers, in order, followed by what is left, is the original stream, and every call that reports no error has put just as many bytes as it says |
| CStrings.FindIs | shell-lab1/tsh.c:305-323 | strchr finds the first occurrence |
| CStrings.StrLen | hw6-concurrency/csapp.c:247-254 | strlen is the position of the first NUL |
| Tokenizer.TokensOfPrint | shell-lab1/tsh.c:296-326 | tokenizing words printed bare or in quotes gives back exactly those words |
| Tokenizer.PrintedLine | shell-lab1/tsh.c:296-326 | the same for a whole line with leading spaces and its newline |
| Tokenizer.PrintedArgv | shell-lab1/tsh.c:288-336 | of a printed line argv gets all words, and the job is for the foreground, unless the last word begins with &, which is then dropped, or there are no words |
| CommandLines.EveryLine | shell-lab1/tsh.c:288-336 | every line, well written or not, consists of bare words with a space behind each, quoted words, and perhaps a quote that is not closed; parseline finds just those words, drops the rest, and reports the background if the last one begins with & or there is none |
| Tokenizer.SkipBlanks | shell-lab1/tsh.c:298-299 | the loop stops at the first character that is not a space |
| Tokenizer.StrChr | shell-lab1/tsh.c:305-308 | the first occurrence, or none before the NUL |
| Tokenizer.ParseLine | shell-lab1/tsh.c:288-336 | cutting the line up in place leaves argv pointing at exactly the words of the line, without a last word that begins with &, which is reported as background |
| PipelineArgs.SlotsArePlaced | shell-lab1/tsh.c:236-279 | for every argv the commands start at increasing positions and a redirection slot that is set lies at least two past its command's start and before the next command, so `> 0` means set |
| PipelineArgs.SlotsNameStrings | shell-lab1/tsh.c:236-279 | for every argv, whatever a slot in use points at is still the string it was, never NULL |
| PipelineArgs.ScanCommands | shell-lab1/tsh.c:249-276 | the scan of a flattened pipeline does command by command what its redirections and pipes say |
| PipelineArgs.CommandRecovered | shell-lab1/tsh.c:249-276 | and each command's words and files are found where its slots say |
| PipelineArgs.FlattenedPipeline | shell-lab1/tsh.c:236-279 | parseargs undoes flattening: every command of the pipeline is recovered, its words as one NULL-terminated list and the last file of each redirection by its slot |
| PipelineArgs.TakeOperator | shell-lab1/tsh.c:250-274 | one operator taken in place: its position becomes NULL and its operand is recorded unless argv ends |
| PipelineArgs.ParseArgs | shell-lab1/tsh.c:236-279 | the loop over argv leaves exactly the specified argv, cmds and redirection slots |
| PipelineSlots.SlotsExact | shell-lab1/tsh.c:236-279 | for every argv: a word becomes NULL if and only if it is an operator that is neither the first word nor taken by an operator before it; commands start at 0 and at just the words that a pipe sign takes, in order; and the redirection slots of a command are the last words in it that < and > take |
| PipelineWiring.Process.Unused | shell-lab1/tsh.c:148-171 | the kernel hands out the lowest descriptor not in use |
| PipelineWiring.Process.Redirect | shell-lab1/tsh.c:161-174 | opening a file, duplicating it over 0 or 1 and closing it replaces just that descriptor, or fails with nothing changed |
| PipelineWiring.MakePipes | shell-lab1/tsh.c:147-150 | the loop adds both ends of every pipe on unused descriptors |
| PipelineWiring.ClosePipes | shell-lab1/tsh.c:186-190 | closing every end, each of which is open, gives back exactly the table without pipes |
| PipelineWiring.Stage | shell-lab1/tsh.c:156-190 | the child of stage i ends with the shell's table but for 0 and 1, which name its file, its pipe or the shell's own; it gives up exactly if one of its files cannot be opened |
| PipelineWiring.Eval | shell-lab1/tsh.c:147-209 | so for every stage, and the shell's own table is what it was before |
| PipelineWiring.OnlyEnds | shell-lab1/tsh.c:147-209 | afterwards the only write end of pipe k is the standard output of stage k and its only read end the standard input of stage k + 1, and neither exists where a file took its place |
| PipelineWiring.PipelineAsWritten | shell-lab1/tsh.c:145-193 | splitting and wiring together set up the pipeline that was written: each command gets its own words, and runs, unless its last input or output file cannot be opened, with those files or its neighbours as its input and output |
| PipelineWiring.LineAsWritten | shell-lab1/tsh.c:134-193 | the same from the characters of the line: if its words, without a last one that begins with &, are those of a pipeline, that pipeline is set up |
| Proxy.TextOfPadded | proxy-lab2/proxylab2-handout/proxy.c:161-167 | zero padding does not change the C string that strstr sees |
| Sockets.AmountIsMin | proxy-lab2/proxylab2-handout/proxy.c:390-394 | a loop moves exactly the lesser of what there is and what the calls on its socket move before one refuses |
| Sockets.CompleteIff | proxy-lab2/proxylab2-handout/proxy.c:310-384 | it is complete if and only if the calls at the front of the script move all there is, or all there is room for, and one more of them follows; if not, the first call that refuses stops it |
| Sockets.Resume | proxy-lab2/proxylab2-handout/proxy.c:310-384 | a loop that would have blocked can be resumed: if the script without the calls that would block completes it, so do the calls that are left, with fewer interruptions to come |
| Sockets.WriteLoop | proxy-lab2/proxylab2-handout/proxy.c:315-317 | it continues where it left off and sends the next bytes of the buffer in order, as many and with the same end as the script alone says |
| Sockets.ReadLoop | proxy-lab2/proxylab2-handout/proxy.c:349-351 | it appends the next bytes of the stream, as many and with the same end as the script alone says |
| Proxy.StrCat | proxy-lab2/proxylab2-handout/proxy.c:228-247 | strcat appends to the string the buffer holds |
| Proxy.Connection.Init | proxy-lab2/proxylab2-handout/proxy.c:144-159 | a reset connection is blank: buffers, counters, host and port |
| Proxy.Connection.Accepted | proxy-lab2/proxylab2-handout/proxy.c:470-479 | a blank connection satisfies the forwarding invariant for a new client and server |
| Proxy.Connection.ReformatClientRequest | proxy-lab2/proxylab2-handout/proxy.c:169-253 | server_request, its length, host and port are what the request is rebuilt as |
| Proxy.Connection.ReadRequest | proxy-lab2/proxylab2-handout/proxy.c:256-307 | resumed at any point it keeps the invariant; it goes on exactly if the reads bring an empty line before one refuses and the request can be rebuilt, waits exactly if it goes on or would have blocked, and gives the connection up if not |
| Proxy.Connection.SendRequest | proxy-lab2/proxylab2-handout/proxy.c:310-341 | what the server has received stays a prefix of the request; the state moves on exactly if the writes get through all of it before one refuses, and the connection is given up exactly on a hard error |
| Proxy.Connection.ReadResponse | proxy-lab2/proxylab2-handout/proxy.c:344-384 | what is buffered stays a prefix of the response; the state moves on exactly if the reads reach its end, or fill the buffer, before one refuses, and the connection is given up exactly on a hard error |
| Proxy.Connection.SendResponse | proxy-lab2/proxylab2-handout/proxy.c:387-410 | the client gets as much of the first min(length, MAX_OBJECT_SIZE) bytes as its socket takes |
| Proxy.Connection.HandleEvent | proxy-lab2/proxylab2-handout/proxy.c:482-505 | one event keeps the invariant, or resets the connection after delivery; while the sockets still take and give enough, each event brings the reset nearer |
| Proxy.Connection.Serve | proxy-lab2/proxylab2-handout/proxy.c:482-505 | over any number of events the server receives only the request rebuilt from the client's bytes, the client only the response and nothing before the server has the whole request; host and port are those of the request; at the reset the client has exactly what fitted and did not block; and if the sockets take and give enough the reset comes, after four events and one more for each call that would have blocked |
| Proxy.ArriveComplete | proxy-lab2/proxylab2-handout/proxy.c:256-307 | the request is complete only with an empty line, and as soon as the reads have brought one; if not, the first read that is refused stops the loop |
| Proxy.ResumeArrive | proxy-lab2/proxylab2-handout/proxy.c:256-307 | a request whose reading would have blocked can be resumed, with the same bytes in the end |
| Proxy.ReadyWhen | proxy-lab2/proxylab2-handout/proxy.c:482-505 | for one request that can be rebuilt, brought by the calls on the client's socket, the sockets take and give enough if and only if the calls on the server's that do not block move the rebuilt request, and then the response or a full buffer of it, and one more of each follows; four events are enough exactly if none would block |
| Proxy.WantedOfWellFormed | proxy-lab2/proxylab2-handout/proxy.c:169-253 | for a well-formed request that fits, that rebuilt request is the one for its path on its host |
| ProxyRequest.WellFormedRequest | proxy-lab2/proxylab2-handout/proxy.c:169-253 | a request for an absolute URI is rebuilt as one for its path, to its host, on its port or 80, whatever headers followed, if and only if every part fits its buffer |
| ProxyMessage.RequestRead | proxy-lab2/proxylab2-handout/proxy.c:227-247 | a reader of HTTP messages finds in the rebuilt request, if its parts hold no CR and the method and path no space: the method, / and the path, HTTP/1.0, Host with host:port, and just the three fixed headers |
| ProxyMessage.RequestEnds | proxy-lab2/proxylab2-handout/proxy.c:227-247 | the rebuilt request holds an empty line at its very end and nowhere before |
| ProxyMessage.RebuiltRead | proxy-lab2/proxylab2-handout/proxy.c:169-253 | so for a well-formed request that fits, the server reads the method, path, host and port that the client asked for |
| ProxyMessage.ServedRead | proxy-lab2/proxylab2-handout/proxy.c:256-307 | and it reads them whatever part of that request the proxy had read when it found the empty line |
| ProxyMessage.CharsOfAscii | proxy-lab2/proxylab2-handout/proxy.c:37-39 | the constants of the request are spelled by the codes of their characters |
| ProxyRequest.RequestNoNul | proxy-lab2/proxylab2-handout/proxy.c:227-252 | the rebuilt request of any C string is a C string that fits server_request |
| ProxyRequest.FewSpacesInFront | proxy-lab2/proxylab2-handout/proxy.c:174-190 | with up to seven spaces in front of a request the code goes on with as many characters from the end of the scheme in front of the URL |
| ProxyRequest.ManySpacesInFront | proxy-lab2/proxylab2-handout/proxy.c:174-190 | with eight or more it goes on with characters from the end of the method, as many as there are spaces from the ninth on, for the URL |
| ProxyRequest.SlashNeededIff | proxy-lab2/proxylab2-handout/proxy.c:186-221 | for any URL the code gets through if and only if there is a slash in it and everything fits |
| DnsWalk.TurnsBounded | dns-lab/resolver.c:318-334 | a walk that ends visits no offset twice and takes fewer turns than the message has bytes |
| DnsWalk.EndsInTime | dns-lab/resolver.c:318-334 | so a walk that ends after any number of turns is one that ends within the number of bytes |
| DnsWalk.GrabCNames | dns-lab/resolver.c:316-336 | for every walk that ends, backwards or forwards, the loop prints what the byte-level specification says |
| DnsWalk.ShownIsFlat | dns-lab/resolver.c:316-336 | compression makes no difference: the bytes of the labels are printed as if written out |
| DnsWalk.ShownIsNameIff | dns-lab/resolver.c:316-336 | for any compressed name with pointers below 256 and labels free of dots, zeros and pointer-like bytes it ends, and prints the name section 4.1.4 of RFC 1035 assigns if and only if no label byte is below 0x2D, the first label has at most 44 bytes and every other at most 44 or exactly 46 |
| DnsWalk.ShownIsName | dns-lab/resolver.c:316-336 | with dots in the labels it is enough that they have 1 to 44 bytes, none below 0x2D |
| DnsWalk.FarPointerMissed | dns-lab/resolver.c:319-321 | a name at offset 256 that its pointer does not lead to |
| Dns.StrTok | dns-lab/resolver.c:145-163 | the next run between dots, cut off in place |
| Dns.NameAsciiToWire | dns-lab/resolver.c:132-171 | writes the encoding of the labels after the header, its length, and nothing else |
| Dns.TokensOfDotted | dns-lab/resolver.c:145-163 | splitting a dotted name gives back its labels |
| DnsLimits.SplitAtDots | dns-lab/resolver.c:145-163 | for every name: dots in front are passed over, and a label ends at the next dot or at the end, so empty labels are dropped |
| Dns.DecodeEncoded | dns-lab/resolver.c:132-171 | what is written decodes, by section 3.1 of RFC 1035, to the labels that were encoded |
| DnsLimits.EncodedDecodesIff | dns-lab/resolver.c:132-171 | a name without empty labels decodes to itself if and only if no label is longer than 63 bytes, as lengths are cut to eight bits |
| Dns.NameSurvivesIff | dns-lab/resolver.c:316-336 | of the bytes of encoded labels the dotted name is printed if and only if no byte is below 0x2D, the first label has at most 44 bytes and every other at most 44 or exactly 46 |
| DnsWalk.PrintedIffSurvives | dns-lab/resolver.c:132-336 | encoding a name and printing it from the wire gives the name back under exactly that condition, for labels of up to 191 bytes |
| Sio.NumeralReads | hw6-concurrency/csapp.c:235-244 | the digits read back in base b as the number and have no leading zero unless it is 0 |
| Sio.OnlySpelling | hw6-concurrency/csapp.c:235-244 | any numeral without a leading zero is what sio_ltoa prints for its value |
| Sio.PrintedReadsIff | hw6-concurrency/csapp.c:235-244 | for every long, with C's division, a reader of signed numerals reads what is printed back as the number if and only if it is not negative |
| Sio.NegativeReads | hw6-concurrency/csapp.c:235-244 | there are numerals that such a reader takes for negative numbers, so the failure is that sio_ltoa does not print them |
| Sio.NegativePrinted | hw6-concurrency/csapp.c:235-244 | of a negative number one character is printed, as far below 0 as its last digit is above it, the same for all numbers with that last digit |
| Sio.LongFits | hw6-concurrency/csapp.c:265-271 | no long needs more than 63 characters, so 128 are enough |
| Sio.Reverse | hw6-concurrency/csapp.c:223-232 | the string is reversed in place and nothing after it changes |
| Sio.Ltoa | hw6-concurrency/csapp.c:235-244 | the array holds the numeral and its NUL |

## Left out

- SbufMachine.Step: `front` and `rear` are unbounded, so int overflow after 2^31 calls is not modelled; semaphore operations are atomic and never fail, and n is at least 1.
- SbufRuns.CompletionIff: threads are either producers or consumers, as in the server.
- JobControl.Step: printing, usage messages, `listjobs`, process groups and the argument syntax of `bg` and `fg` are not modelled; SIGINT and SIGTSTP act only through the change of a child that they cause.
- JobControl.WaitReturns: it counts statements of the main flow; that the handler itself ends is up to how often children change state.
- Rio.Buffered.ReadLineB: maxlen is at least 1; for 0 the code writes outside the buffer.
- Proxy.Connection.ReadRequest: at end of file or with a full buffer and an incomplete request the code spins for ever; here every socket reports EAGAIN once its script is over, and that case only waits.
- Proxy.Connection.Serve: one client and one server per connection; sharing of a slot by several clients, epoll registration and failures to connect are not modelled, and `write` of a positive count never returns 0.
- Proxy.Connection.Init: the two descriptors, which it sets to 0, are not modelled.
- ProxyRequest.Fits: where the code would use a null pointer, an unset URI or what a buffer held before, or would write past the end of one, the request is `Malformed` and the connection is given up; what the code then does is not modelled.
- DnsWalk.ShownIsNameIff: pointers from 256 on, which are misread, and bytes that stop or divert the walk in the middle of a label are excluded; `DnsWalk.FarPointerMissed` shows what can happen.
- DnsWalk.GrabCNames: nothing is claimed of a name whose walk does not end.
- DnsWalk.PrintedIffSurvives: labels of 192 bytes or more and bytes from 0xC0 on, which are taken for pointers, are excluded.
- Tokenizer.ParseLine: lines of MAXLINE characters and more, and MAXARGS words and more, which overrun the arrays of the code, are excluded.
- PipelineWiring.Eval: descriptors 0 and 1 are open at the start; failures of pipe, fork and setpgid, which end the shell, and of execve, and waiting for the children, are not modelled.
- Sio.Ltoa: the base is between 2 and 36, beyond which there are no digits.
- The rest of `dns-lab/resolver.c` (resource records, answers, sockets), the wrappers of `csapp.c`, socket setup, the web servers, the OpenMP programs and the smaller homework programs add no logic of this kind.

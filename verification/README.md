# A verified model of swh

swh lets a user type commands to an HP switch over ssh and shows the replies with their
escape sequences removed. This project models the path from the bytes read off the ssh
pipe to the text shown to the user, and proves what that path guarantees.

The model has four layers, as the program has.

* **The escape recogniser** (`AnsiSeq.dfy`, `EscParser.dfy`): a table machine over bytes.
  `AnsiSeq` is the fold of one step; `EscParser` is the loop with its static variables and
  fixed arrays, proved to compute that fold. `Grammar.dfy` says byte by byte what an escape
  sequence is, `Contents.dfy` and `AnsiSeqText.dfy` what it means; the recogniser is proved to
  take exactly these sequences and to find exactly these parts.
* **The engine** (`Fsm.dfy`, `Machine.dfy`): a flattened transition table fed token by token,
  with an end-of-data probe and commit. `Fsm` holds the specification and the theorems about
  every closed table of three tokens; `Machine` the loop, the recording buffers and the latches.
* **The three programs** (`Programs.dfy`, `Languages.dfy`, `Backend.dfy`): the login chat, the echo
  of one character, the reply to a command.
* **The protocol** (`Protocol.dfy`, `Switch.dfy`, `Pipe.dfy`, `Ui.dfy`, `Core.dfy`): the BUSY / READY /
  WRITING steps, the pipe, the line splitter and the driver loop. The theorems about whole
  runs are in `CoreRuns.dfy` (the invariant), `Session.dfy` (what a session shows), `Answers.dfy`
  (when the login is answered), `Prefixes.dfy` (tokens, and which bytes begin a reply), `Pauses.dfy` (what a pause can do; `Samples.dfy` has sample
  sessions) and `Driven.dfy` (runs whose reads come from one script).

Everything that the program does by updating variables is a class or a method with a loop
(`Buffers`, `EscParser`, `Machine`, `Backend`, `Pipe`, `Switch`, `Ui`, `Core`), and each method's
postcondition equates the new state with a function of the old one. The theorems are about
those functions. `Core.CoreRun` closes the circle: for any behaviour of the pipe and the
terminal, and however the driver ends, what the objects do is a run (`CoreRuns.IsRun`) whose
reads are those of the pipe's script in order (`Driven.IsDriven`), and a panic is what the next
read of that script does to that run (`Core.Dies`). The terminal's input is a script as well:
the lines taken are the first of those it holds, and when the input ends they are all the
lines typed before its end (`Core.Seen`). So the theorems hold of the objects; in
particular, when the pipe's script is that of a switch which answers the typed lines as planned
(`Driven.Paced`), the driver does not panic, every line is sent and answered, and the terminal
shows the session's text (`Core.Served`). Such scripts exist for every plan
(`Driven.OnePiecePaced`).

Panics are outcomes. `C(...)` and `CE(...)` become `Fatal`, `Panicked`, `Panic` or `Abort`, with the reason.
The pipe and the terminal are scripts: the pipe's says which bytes arrive in which pieces,
when a read finds nothing, and when the switch hangs up. `selectfd` lets time pass until
there is something to read, so the read after it is never empty.

Findings about the code, each stated by a lemma:

* A pause of the switch at a point where end of data would be accepted cannot be told from
  the end of the reply. The session stays in step with the switch exactly when no such pause
  falls strictly inside a reply (`Session.EndInStep`). So a switch that only sends replies in
  the three languages, but pauses where it likes, is understood exactly when no planned reply
  begins with another reply to the same program (`Pauses.PauseProofExactly`). A further escape
  sequence after a reply makes another reply (`Prefixes.TrailingEscape`), so a reply that ends
  in two of them is not safe.
* What can happen otherwise: a prompt with a wrong text, whenever the reply to a newline
  begins with one that is displayed differently (`Pauses.EarlyEnd`; `Samples.EarlyEndExists` gives the
  lines, the replies and both texts); and the abort "fsm in error state", since the rest of
  the reply goes to the next program (`Pauses.EarlyAbort`; `Samples.EarlyAbortExists` has an
  instance in which every reply is in its language).
* A read aborts the session exactly when the switch has hung up or the bytes received since the
  last reply ended hold a complete token that no reply of the current program has there
  (`Session.AbortExactly`, `Prefixes.FeedsViable`). This is not the switch's fault alone: after a
  pause as above the current program is the wrong one.
* Replies go through `strlen`. A reply is shown with nothing but its escape sequences missing
  exactly when its text holds no NUL (`Session.DisplayExact`, `Session.PromptExact`), and the
  same holds of a whole session (`Session.SessionTransparency`); `Samples.NulReplyExists` is a
  reply that is not.
* On "fsm in error state" the login answers that the same feed asked for have been written
  already: exactly those that are due before the token that did not fit
  (`Answers.AnsweredBeforePanic`).
* `uc_ia_getdata` returns the whole length of a line even when it copied less;
  `Ui.LineBuffer.GetLine` states both cases, and the driver is proved for input without NUL
  and without lines of 512 bytes or more (`Ui.Tame`).
* The abort "meh" needs an empty read right after `selectfd` reported data
  (`Session.MehNeedsFalseWakeup`).

Assumptions, where the C code has no check of its own:

* No escape sequence stores more than 8 parameters or a parameter above INT_MAX
  (`AnsiSeq.StreamInBounds`). It is a precondition of the methods with the fixed arrays only; the
  theorems about recognition, feeding and sessions hold without it.
* Whether plain `char` is signed is left open (`AnsiSeq.CHAR_IS_SIGNED`), so everything holds whether or not
  '\234' can match the byte 0x9c.
* Allocation succeeds, and sizes do not reach the limits of `size_t`.

Where comments and code differ the model follows the code: `src/back/ansiseq.c:28` calls S_ERR
accepting, but entering it panics; the message at `src/sc.c:220` speaks of a missing newline, but
what is checked is that the write buffer is empty; `ansiseq_init` is never called, so
the unused parameter slots of a fresh sequence are 0 rather than ABSENT, which nothing observes.

## Model

| member | source | states |
|---|---|---|
| Bytes.CStr | src/sc.c:293-309 | what a buffer passed as a `char *` denotes: the prefix before the first NUL |
| Buffers.Buffer.Shift | src/common/common.c:33-41 | in-place shift drops exactly the first n bytes |
| Buffers.Buffer.Grow | src/common/common.c:44-57 | doubling terminates, reaches at least the wanted size and less than twice it when it grows, and keeps the contents |
| Buffers.Buffer.StrLen | src/sc.c:293-305 | the length found is that of the C string |
| AnsiSeq.EatAppend | src/back/ansiseq.c:102-119 | the recogniser can be suspended anywhere: eating a + b is eating a and, if more is asked for, resuming with b |
| AnsiSeq.StablePrefixCode | src/back/ansiseq.c:93-125 | a recognised sequence is recognised unchanged in every extension, every proper prefix of it asks for more, it has 2 to len bytes, and a fatal byte is equally stable |
| AnsiSeq.PrefixFree | src/back/ansiseq.c:68-75 | no recognised sequence is a proper prefix of another |
| AnsiSeq.HistoryIndependent | src/back/ansiseq.c:78-125 | despite static state the result depends only on the bytes eaten, not on what follows them or what earlier calls left behind |
| AnsiSeq.EscapeRestarts | src/back/ansiseq.c:68-75 | the result equals recognising the suffix from any ESC inside, with the skipped length added |
| Grammar.RecognisedExactly | src/back/ansiseq.c:57-125 | spelt in bytes alone: a sequence is recognised exactly when it is a letter, '<', '=', '>' or digit behind the last ESC, or '#', '(' or ')' and one such byte, or '[' with digits, '?' and ';' and a letter or '<', '=', '>', or ']' with a payload and its terminator; more is asked for exactly inside one; the panic comes exactly at the first byte that fits none |
| Contents.ContentsByForm | src/back/ansiseq.c:144-218 | class, command, private flag, parameters and string of every sequence are those read off its bytes: fields between ';', decimal, leading zeros and '?' anywhere included |
| AnsiSeqText.EatDigits | src/back/ansiseq.c:185-191 | a printed decimal is read back as the number, and overflows exactly above INT_MAX |
| AnsiSeqText.CsiRoundTrip | src/back/ansiseq.c:152-191 | printing and parsing a control sequence gives back class, command, private flag and parameters, empties as INT_MIN and one trailing empty dropped; the arrays suffice exactly when at most 8 parameters, none above INT_MAX, are stored |
| AnsiSeqText.OscArgument | src/back/ansiseq.c:193-204 | the string argument is the first 255 non-NUL payload bytes in order, and the whole payload is eaten up to its terminator |
| EscParser.Parser.ActBegin | src/back/ansiseq.c:152-160 | ESC resets every static variable |
| EscParser.Parser.ActStor | src/back/ansiseq.c:162-173 | storing a parameter, within the array, has the specified effect |
| EscParser.Parser.ActMkCtl | src/back/ansiseq.c:175-183 | a last parameter is stored before the command byte |
| EscParser.Parser.ActMkStr | src/back/ansiseq.c:193-204 | appending at `strlen` keeps the array a terminated string and clips it |
| EscParser.Parser.EatOne | src/back/ansiseq.c:93-125 | the loop over the static variables computes the recogniser, result and statics alike, inside the array bounds |
| Fsm.IndInverts | src/back/fsm.c:18-21 | the flattened index stays inside the table and is inverted by division and remainder |
| Fsm.MkTokStable | src/back/hp/common_hp.c:24-48 | a token depends on its own bytes only: it is the same in every extension and every prefix that holds it |
| Fsm.FeedAppend | src/back/fsm.c:63-103 | feeding a + b is feeding a, keeping the residue, and feeding the residue with b |
| Fsm.FeedResidue | src/back/fsm.c:75-103 | what is left over is empty, an incomplete escape sequence or follows an error, and feeding it again eats nothing |
| Fsm.FragmentationIndependent | src/sc.c:245-271 | for every closed three-token table and every cutting of a stream, the append / feed / shift loop ends in the machine, strings, residue and panic or error outcome of one feed of the whole |
| Fsm.FeedIsTokenFold | src/back/fsm.c:63-103 | the consumed bytes are tokens end to end, and the machine is the fold of the two-dimensional table over them |
| Fsm.FoldIsFed | src/back/fsm.c:63-103 | conversely, when the fold over a stream's tokens stays out of the error state, feeding agrees with it and eats every complete token |
| Prefixes.TokenByForm | src/back/hp/common_hp.c:24-48 | a byte other than ESC is a token; at an ESC there is an escape token exactly when a whole sequence stands there, more is asked for exactly when the data is the beginning of one, and otherwise it panics |
| Prefixes.LexExactly | src/back/fsm.c:63-103 | a string falls into given tokens and a rest exactly when it is written as them end to end, each escape token is a whole sequence, each other one not ESC, and the rest the beginning of a sequence |
| Prefixes.FeedPanicsExactly | src/back/fsm.c:63-103 | feeding panics exactly when, behind tokens that stay out of the error state, bytes come that are no escape sequence and cannot become one |
| Machine.Recorder.ActRec | src/back/hp/fsm_cmdout_hp.c:114-126 | recording appends one character, keeps the terminator, and grows when needed |
| Machine.Recorder.ActRecPs | src/back/hp/fsm_cmdout_hp.c:129-138 | the same for the prompt |
| Machine.Recorder.ActNoOut | src/back/hp/fsm_cmdout_hp.c:92-111 | the recorded output becomes the prompt and the output is emptied, with room for it |
| Machine.Recorder.GrowthIsAmortized | src/back/hp/fsm_cmdout_hp.c:114-126 | over n recorded characters, resets included, all growths of the output buffer move less than 2n bytes |
| Machine.Recorder.Reset | src/back/hp/fsm_init_hp.c:80-88 | a reset empties the strings and clears the latches |
| Machine.Recorder.ReadAnyKey | src/back/hp/fsm_init_hp.c:146-152 | reading the latch tells and clears it |
| Machine.Recorder.ReadReport | src/back/hp/fsm_init_hp.c:154-160 | reading the latch tells and clears it |
| Machine.MkTok | src/back/hp/common_hp.c:24-48 | the tokenizer call, whatever the recogniser's statics hold, gives the specified token or asks for more |
| Machine.Engine.IsAccepting | src/back/fsm.c:138-145 | the search loop decides membership in the accepting states |
| Machine.Engine.Reset | src/back/fsm.c:105-112 | the machine is back in its initial state with nothing recorded |
| Machine.Engine.Feed | src/back/fsm.c:63-103 | the loop computes the token fold, the probe changes nothing, the commit takes the end-of-data transition |
| Programs.CellsAreRows | src/back/hp/fsm_cmdout_hp.c:60-70 | looking up the flattened table gives the cell of the row and column |
| Languages.CmdoutLanguage | src/back/hp/fsm_cmdout_hp.c:60-70 | end of data is accepted exactly after E+ R+ E+ and E+ R+ E+ R+ E+ |
| Languages.CmdoutExtraction | src/back/hp/fsm_cmdout_hp.c:60-138 | one block is the prompt with no output, two blocks are output and prompt, and together they are the reply without its escape sequences |
| Languages.InitLanguage | src/back/hp/fsm_init_hp.c:63-76 | end of data is accepted exactly after (R+ E+)^4, and the prompt is the fourth text block |
| Languages.IncharLanguage | src/back/hp/fsm_inchar_hp.c:44-52 | end of data is accepted exactly after one escape sequence, one character, one or more escape sequences |
| Languages.Monotone | src/back/hp/fsm_init_hp.c:63-76 | over any token stream the state of each program never decreases, and only a reset leaves the final or the error state |
| Languages.LatchesFireOnce | src/back/hp/fsm_init_hp.c:97-111 | over any token stream each latch fires at most once, exactly when its threshold state is passed, and then says so |
| Languages.ProbeExact | src/sc.c:273-280 | the probe says yes exactly when the commit reaches the final state, and no exactly when it would reach the error state |
| Languages.ReadsAccepted | src/sc.c:273-307 | a program that would accept end of data has eaten a complete reply, and committing yields that reply's output and prompt |
| CoreRuns.OperFeedFacts | src/sc.c:245-271 | a call that feeds keeps the program on track, loses no byte, leaves a residue that cannot be eaten, and sends the login answers the states passed call for; one that panics has repeated none and sent none out of order |
| CoreRuns.OperEndFacts | src/sc.c:273-315 | a call without data commits exactly a complete reply and hands over its output and its prompt, each in its own buffer, or sets the latch, or panics with the latch already set |
| CoreRuns.StepKeeps | src/sc.c:106-143 | every event keeps the run invariant, and the only panics left are "read: EOF", the recogniser's error state and "fsm in error state" |
| CoreRuns.RunKeeps | src/core.c:45-73 | so in every state of every run; the other panics of sc.c are unreachable |
| Session.ProtocolInvariant | src/sc.c:215-316 | the mode says which buffers are empty, BUSY means a program in progress, the no-data latch is set exactly while data is awaited with nothing buffered, after a rejected probe, and READY is never reached in the echo program |
| Session.LockstepAndConservation | src/sc.c:123-316 | sent plus queued is the login answers and the accepted lines, received is eaten plus buffered, and between two typed bytes exactly one complete reply in the right language was eaten |
| Session.ReplyIsOneFeed | src/sc.c:240-280 | however a reply was cut up and whatever empty reads came between, program and buffer are those of one feed of all its bytes, and the next bytes panic exactly when that one feed would |
| Prefixes.FeedsViable | src/back/fsm.c:63-103 | for each program, feeding a string from the start runs into no panic and no error state exactly when its complete tokens begin a reply of the program's language |
| Prefixes.TrailingEscape | src/back/hp/fsm_cmdout_hp.c:60-70 | a further escape sequence after a reply makes another reply |
| Session.AbortExactly | src/sc.c:240-280 | in every run, the next read aborts exactly when it is the hang-up or makes the bytes since the last reply ended hold a complete token that rules out every reply of the current program |
| Session.HandshakeOnce | src/sc.c:255-263 | during the login the bytes sent are a prefix of `x` and `ESC[9999;130R`, even after a panic in mid-call; from the first READY on they are both answers and what was typed, and READY needs (R+ E+)^4 |
| Answers.AnswersMean | src/sc.c:255-263 | the answers are the key x and the report of row 9999, column 130 |
| Answers.AnsweredInTime | src/sc.c:255-263 | in every state of the login exactly the answers due have been sent: the key once the second text is over, the report once the third has begun |
| Answers.AnsweredBeforePanic | src/sc.c:248-268 | before "fsm in error state" exactly the answers due before the offending token are sent, before any other panic none in that call |
| Session.HandedOver | src/sc.c:289-309 | at READY in every run the reply pointer and the prompt pointer denote, each by itself, the output block and the prompt block of the last reply, and no output after the login or a one-block reply |
| Session.DefensivePanics | src/sc.c:106-143 | what exactly each of the panics that no run reaches would take |
| Session.RoundTripBound | src/core.c:48-50 | a round trip with a line of n bytes and B received bytes takes at most 2n + 2B calls of sc_operate |
| Session.MehNeedsFalseWakeup | src/sc.c:273-280 | the abort "meh" is exactly an empty read with the latch set, and the latch is only set while selectfd has promised data |
| Session.FeedReturns | src/sc.c:245-271 | no part of a reply in the language is fatal, and a whole reply is eaten whole |
| Session.EndInStep | src/sc.c:273-284 | an empty read keeps the session in step exactly when it is not strictly inside a reply at an accepting point |
| Session.StepInStep | src/core.c:45-73 | every cooperative event keeps the session in step and none aborts it |
| Session.DisplayExact | src/sc.c:289-297 | a command reply is shown as its text without escape sequences exactly when that text holds no NUL |
| Session.PromptExact | src/sc.c:299-309 | the login prompt shown is the fourth text block exactly when that holds no NUL |
| Session.SessionTransparency | src/core.c:45-73 | for any lines, replies, fragmentation and cooperative schedule the session never aborts, and the user is shown the login prompt and, per command, what the reply to its newline displays, which is that reply without its escape sequences exactly when no NUL is in the text |
| Session.SessionCompletes | src/core.c:45-73 | every such session, stopped anywhere, also inside a reply, can be continued, as the same run with more events, until all lines are accepted and answered |
| Pauses.NoPauseMatters | src/sc.c:273-284 | when no proper prefix of the reply in progress is itself a reply, whatever the switch sends of the plan, with whatever pauses, is cooperative |
| Pauses.PauseBreaks | src/sc.c:273-284 | whenever a planned reply, of any of the three programs, begins with another reply, some run on planned bytes takes that for the whole |
| Pauses.PauseProofExactly | src/sc.c:273-284 | all runs of a switch that sends the plan with arbitrary pauses stay in step, or equivalently are legal, exactly when no planned reply begins with another reply to its program |
| Pauses.EarlyAbort | src/sc.c:240-284 | after such an early end, a read of further planned bytes that begin no reply of the next program aborts the session |
| Pauses.EarlyEnd | src/sc.c:273-284 | whenever a newline reply begins with a reply displayed differently, some run on a prefix of the planned bytes comes to the next prompt with a text that is neither the expected nor the session text |
| Samples.EarlyEndExists | src/back/hp/fsm_cmdout_hp.c:60-70 | an actual session whose text is "aop" and of which a run shows "ao" |
| Samples.EarlyAbortExists | src/sc.c:240-284 | a session of the line "a", all replies in their languages, that a pause before the last escape sequence of the login lets abort |
| Samples.NulReplyExists | src/sc.c:289-309 | a reply of the language that is not shown as its text, because that holds a NUL |
| Driven.Accounts | src/sc.c:189-213 | in every state of a run that a script drives, the bytes received and those left in the script are the script's |
| Driven.HangUpIsNext | src/core.c:48-50 | a hang-up in the script stays there until it is read, whatever the driver waits for |
| Driven.PaceKept | src/sc.c:240-316 | when the script holds the rest of a plan, it does so after every event; the empty reads that pass in selectfd are not the end of a reply |
| Driven.DrivenSession | src/core.c:45-73 | a run driven by a planned script for a user who types the lines is legal, no read of the script aborts it, and every prompt shows the expected text |
| Driven.NoSilence | src/core.c:48-50 | when the script holds all replies, the driver never waits for ever for the switch |
| Driven.OnePiecePaced | src/core.c:45-73 | sending each reply in one piece with a pause after it is such a script, for every plan |
| Pipe.Wire.XRead | src/common/common.c:124-151 | a read takes the head of the script: an empty read, some of the bytes that have arrived but not more than asked for, or the hang-up, exactly when that is there |
| Pipe.Wire.Select | src/common/common.c:62-89 | blocking lets exactly the leading empty reads pass: what is left starts at the first other one, so a hang-up stays to be read |
| Pipe.ReadFacts | src/common/common.c:124-151 | no byte is lost or made up, no read is empty, and a read finds nothing exactly when nothing is there |
| Switch.ScInit | src/sc.c:65-90 | the initial protocol state |
| Switch.Conn.ReadMore | src/sc.c:189-213 | what is read is appended to the read buffer, which grows when full |
| Switch.Conn.Answer | src/sc.c:255-263 | the login answers the latches ask for are written, and the latches cleared |
| Switch.Conn.FeedBuffer | src/sc.c:245-271 | the branch with data has the specified result, state and writes, the writes also when it panics |
| Switch.Conn.EndOfData | src/sc.c:273-315 | the branch without data likewise |
| Switch.Conn.DoBusy | src/sc.c:240-316 | oper_busy computes the specified step for whatever the read returned |
| Switch.Conn.DoWriting | src/sc.c:215-238 | oper_writing sends the first queued byte and starts the program that byte selects |
| Switch.Conn.Operate | src/sc.c:106-121 | sc_operate computes the specified step |
| Switch.Conn.Write | src/sc.c:123-143 | sc_write queues the line at READY and panics otherwise |
| Switch.Conn.Replies | src/sc.c:145-161 | the reply and prompt pointers denote the stored strings |
| Bytes.SplitIs | src/front/ia/uc_ia.c:64-83 | the only way to cut a text into lines and a rest without a newline is at every newline |
| Ui.Tty.XRead | src/common/common.c:124-151 | a read takes some bytes, not more than asked for, off the front of what is typed, or finds the end of input, which is neither made up nor removed |
| Ui.LineBuffer.FindNewline | src/front/ia/uc_ia.c:43-52 | strchr finds the first newline before the first NUL |
| Ui.LineBuffer.ReadMore | src/front/ia/uc_ia.c:105-122 | what is typed is appended, and the panic comes exactly at end of input or with a full buffer |
| Ui.LineBuffer.HasLine | src/front/ia/uc_ia.c:39-62 | yes exactly when a line is there; for tame input the panic means that the input has ended there, and nothing typed is lost |
| Ui.LineBuffer.GetLine | src/front/ia/uc_ia.c:64-83 | the first line is taken out, nothing is lost or reordered, each line has one newline and it is last; the copy is complete exactly when it is shorter than its destination |
| Ui.NotFull | src/front/ia/uc_ia.c:105-115 | for tame input the buffer is never full without holding a line |
| Ui.LineFits | src/core.c:40-72 | a line of tame input fits the driver's 512 bytes |
| Core.OperateFollows | src/core.c:48-50 | a call of sc_operate takes the driven run one event further, or is the panic that ends it |
| Core.CallOperate | src/core.c:48-50 | the same of the objects, with a measure of progress |
| Core.RunInner | src/core.c:48-50 | the inner loop continues a driven run to READY, to a switch silent for ever, or to a call whose read is the script's next and which panics, with all bytes written by then accounted for |
| Core.ShowReply | src/core.c:55-61 | the user is shown what the run says |
| Core.AcceptLine | src/core.c:63-72 | a line is fetched whole and queued; getting none, or being refused, cannot happen; when none comes any more, all whole lines typed before the end of input have been taken |
| Core.ServedAsPlanned | src/core.c:37-74 | for a planned script and a user who types the lines: no panic, the expected text at every prompt, and unless the switch falls silent every line sent and answered, the text shown being the session text exactly when that holds no NUL |
| Core.CoreRun | src/core.c:37-74 | for any pipe, any tame input and any end, panics included, the bytes read and written, the text shown and the lines taken are those of a run that the pipe's script drives; the lines are the first of those typed, and all of them when the input is over; only a hang-up or bytes that begin no reply of the current program abort it; it waits for ever for the switch only if the pipe is never closed; and a planned session is served |

## Left out

- Spawning ssh, `select`, `read` and `write` themselves, signals, sleeping and transcripts: represented by the scripts and histories of the pipe and the terminal.
- Logging and the dump functions: they do not change protocol state.
- Name-based attachment of front and back ends and the dispatch wrappers: only one of each exists, so the calls are bound statically.
- The noop front end and the OFFLINE state: no code shown ever enters them.
- `ansiseq_eatone` with a destination: its only caller passes none; the parsed sequence is the recogniser's own state.
- Failure of `malloc` and `realloc`, and overflow of doubled sizes.
- What the C code does beyond its array bounds (a ninth parameter, a parameter above INT_MAX, a line of 512 bytes or more) is undefined and not modelled.
- Machine.Engine.Feed: input is a sequence value rather than a pointer into a shared buffer, since the engine only reads it.
- Machine.Recorder.Reset: one class serves all three program files, so the echo program's reset clears buffers that it does not have.
- Core.CoreRun: the endless loop stops when the switch or the user would be waited for ever, because the scripts are finite.

# PBS command layer: a verified model

The PBS commands talk to a batch server for the user. This project models the parts of `qsub`, `qmgr`, `qstat`, `pbsdsh`
and `pbsnodes`, and of the header `bitfield.h`, that carry real state, parsing or arithmetic, and proves what they keep,
undo or compute. Where a natural claim is false of the code, the model keeps the code and the claim becomes an
if-and-only-if with the exact condition, beside a concrete case that fails.

`dafny verify dfyconfig.toml` verifies everything. Nothing was executed.

| file | what it models |
|---|---|
| `CText`, `EnvText`, `CommaEscape` | C strings, the comma tokenizer, the copying and escaping of environment values |
| `EnvExport`, `JobEnv`, `VariableList` | `qsub -V`, `qsub -v` with the goto machine behind it, and what becomes of plain variables |
| `JobList`, `WholeEnv` | any text given to `-v`, on its way through qsub, the server and qstat; `-V` and `-v` together |
| `ServerList`, `QstatEnv` | the list in the server, as strings and as text, and how `qstat` takes it apart again |
| `Options`, `OptionRules`, `OptionSources` | the options of qsub from command line, script and server defaults |
| `Submission` | any number of foreground and background qsub processes, with crashes at any step |
| `WireCodec`, `WireEndpoint`, `WireRequest`, `WireUnique` | the request on the socket between them, under any short reads and writes |
| `Retry` | submitting again after new default arguments |
| `CommandSplit`, `ServerPool` | taking qmgr's commands from a line; its connections and reference counts |
| `JobBatch`, `Rounding`, `SizeText` | qstat's queries for many jobs; the sizes it prints |
| `BitWords`, `BitSets`, `Bitfield`, `BitShift` | multiword bit sets as sets of positions, and their shifts |
| `EventLoop` | pbsdsh spawning tasks and waiting for them |
| `MemScale` | the memory amounts of pbsnodes |

The code that updates things in place is modelled in place (classes with fields, arrays, loops), each method proved
against a function; lemmas then say what that function means. Text is `seq<char>` up to the terminator, a linked list is
a `seq` of its nodes, and machine words are numbers below 2^64. `hide` statements only keep proofs quick.

## What turned out not to hold

- A value with a backslash directly in front of a comma does not survive `qsub -V`, because that backslash is not
  doubled (`EnvExport.BackslashCommaIsLost`).
- A shell function with two newlines after a semicolon loses one in `expand_varlist` and one in `set_job_env`
  (`VariableList.TwoPassesLoseTwice`); the second pass also changes every value with a quote or a
  backslash (`VariableList.SecondPassIsIdentity`). For a whole list, whatever the text given to -v: what is sent is
  what `expand_varlist` wrote exactly if the second pass finds nothing to change (`JobList.JobListIsBuilt`).
- A basic list with an open quote swallows the variables behind it (`WholeEnv.JobTokens` says exactly when a list holds
  all that it should).
- The server does not keep every list: white space around a variable goes, and so do backslashes in front of special
  characters (`ServerList.ServerKeepsTheList` says exactly when it does). A list whose last value ends in a comma loses
  its last variable, because `count_substrings_bs` takes the escaped comma for a separator
  (`ServerList.EndingCommaLosesVariable`). qstat shows the backslashes that the server puts in front of quotes and
  backslashes (`ServerList.QstatShowsTheServersList`).
- If the read of the acknowledgement fails although the background qsub has sent it, the job is submitted twice; a
  background qsub that dies behind its acknowledgement loses the job (`Submission.LostAckSubmitsTwice`,
  `Submission.DeadDaemonLosesJob`). The second is what the source prefers.
- A job accepted at the sixth attempt is reported as PBSE_PROTOCOL (`Retry.SixthAcceptanceIsReportedAsFailure`).
- `roptarg` is not sent to the background qsub, so a default `-J` can make an array of a job that is not to be run again
  (`OptionRules.HandOverKeepsRerun`); and the block attribute stays in the list of a job that a script then makes
  interactive, although the registers exclude each other (`OptionRules.BlockAttributeStays`; exactly when it does is in
  `OptionRules.BothInList` and, by what the options ask for, in `OptionSources.BothFromSources`).
- `qstat -E` asks the wrong server when a job of the default server follows a remote one, loses the last batch when the
  last operand is illegal, and asks for nothing behind the first query whose server is down
  (`JobBatch.QueriesAreBatches`, `JobBatch.NoJobIsLost`, `JobBatch.SentInFrontOfDown`, with the case
  `JobBatch.OneDownTakesNextAlong`). Remote jobs need not be grouped.
- The shift macros are right for two words only; the default is four (`BitShift.ShiftsNeedTwoWords`).
- pbsdsh that could not spawn one task and then spawned another exits with a failed poll, because its window does not
  cover the last tasks (`EventLoop.Dsh.Run`).
- Once its connection has ended, `tm_poll` answers with the null event as a success. pbsdsh takes that for the end of
  each task in its window whose end it has no number for, and counts below zero, waits for ever or goes on although
  tasks run: the wait is over exactly if no spawn is counted and the number of those slots divides the count
  (`EventLoop.Dsh.LeftWaitEnds`, with the cases `EventLoop.NullEventEndsTheWait` and `EventLoop.NullEventsNeverEnd`).
- Rounding to the nearest in every turn is rounding once exactly when the remainder is not just below one half
  (`MemScale.RoundingOnceIsEnough`, with the case `MemScale.RepeatedRoundingDrifts`).
- qmgr leaks queue and node names that could not be made active, and the servers they refer to stay connected
  (`ServerPool.Qmgr.SetActiveLeaking`, `ServerPool.Qmgr.Session`); on its command line it connects more servers than its
  limit (`ServerPool.Qmgr.ConnectAll`).
- The static name is not always cleared behind a request: the `continue` of an import or export whose file cannot be
  used skips it, so that the server stays connected at the next cleaning (`ServerPool.StaticNameStays`, with the case
  `ServerPool.Qmgr.ImportOfMissingFile`).
- R_opt and the destination of one attempt to submit are still there in the next one (`Retry.WholeStateIsolation`).

## Model

| member | source | states |
|---|---|---|
| EnvText.ScanToken | src/cmds/qsub.c:379-419 | comma_token stops at the first comma outside quotes that no backslash escapes, skipping escaped characters |
| EnvText.CommaTokenizer.Next | src/cmds/qsub.c:379-419 | delivers the next token of the text not yet delivered and leaves the cursor behind the comma; nothing at the end, and no empty token behind a last comma |
| EnvText.CopyEnvValue | src/cmds/qsub.c:433-505 | the pointer walk appends the escaped value, stops at the right comma when the text is a list, and reports an open quote |
| EnvText.CopyIsIdentity | src/cmds/qsub.c:433-505 | copy_env_value leaves a text as it stands if and only if that has no quotes, commas exactly behind backslashes, and no newline that a shell function loses |
| EnvText.EscapedIsOneToken | src/cmds/qsub.c:379-505 | without a backslash-comma pair an escaped value is exactly one token when the end or a comma follows it |
| EnvText.EscapedRecovers | src/cmds/qsub.c:433-505 | dropping the escaping backslashes gives the value back, less the newlines that a shell function loses |
| EnvText.EscapedIsCut | src/cmds/qsub.c:433-505 | with such a pair the token is cut there and what comes back is shorter than the value |
| EnvExport.EnvArrayToVarlist | src/cmds/qsub.c:4023-4072 | the list holds the exported variables in order, escaped, up to the first empty string and without those that start with PBS_O_ |
| EnvExport.ExportRecoverable | src/cmds/qsub.c:4051-4069 | tokenizing the list gives an empty token and then exactly one token for each variable that unescapes to name and value, if and only if no value has a backslash-comma pair and no shell function a newline after a semicolon |
| EnvExport.NothingExported | src/cmds/qsub.c:4051-4069 | the list has no tokens exactly when there is nothing to export |
| EnvExport.BackslashCommaIsLost | src/cmds/qsub.c:433-505 | a variable that does not come back |
| CommaEscape.StrdupEscCommas | src/cmds/qsub.c:840-864 | a copy with a backslash in front of every comma, whatever the buffer growth |
| QstatEnv.PrtAttrV | src/cmds/qstat.c:395-418 | the loop over key and value makes the pairs of the functional splitter, and runs past the terminator exactly when that does |
| QstatEnv.SplitUndoesJoin | src/cmds/qstat.c:395-418 | qstat gives back the joined list if and only if every value is non-empty, does not start with a comma and, unless it is the last or a lone backslash, does not end in a backslash |
| QstatEnv.Collects | src/cmds/qstat.c:395-418 | once a value has begun, the scan only appends to it and stays inside the text |
| QstatEnv.ValueSwallows | src/cmds/qstat.c:395-418 | a value that ends in a backslash takes the comma behind it, and so the next entry, with it |
| JobEnv.ExpandVarlist | src/cmds/qsub.c:521-618 | the token loop expands each name from its value or the environment in order, and fails exactly where a value is missing or a quote stays open |
| JobEnv.SetJobEnv | src/cmds/qsub.c:4092-4219 | the goto machine ends, on any text, with the list that a recursive walk over the names builds and behind it, with -V, the list of the environment, or refuses exactly when that walk does |
| JobEnv.CopyRestIsSuffix | src/cmds/qsub.c:433-505 | copy_env_value only moves forward in the text, which is why the goto machine ends |
| VariableList.ExpandResolves | src/cmds/qsub.c:521-618 | for plain values a -v list expands to exactly the variables it names, in order, with commas escaped; it fails if and only if a bare name has no value |
| VariableList.WalkEntries | src/cmds/qsub.c:4123-4207 | on a list of entries the goto machine appends exactly those not starting with PBS_O_, in order, unchanged |
| VariableList.WalkEntriesX11 | src/cmds/qsub.c:4175-4188 | with X11 forwarding such a list is refused if and only if it gives DISPLAY a value |
| VariableList.WalkBare | src/cmds/qsub.c:4146-4172 | a bare name is looked up and appended escaped, refused when it is not there, and left out when it is one of the names of qsub |
| VariableList.SecondPassIsIdentity | src/cmds/qsub.c:433-505 | a second copy_env_value changes nothing in the escaped form of a value if and only if the value has no quote and no backslash and the first pass has left no newline after a semicolon in a shell function |
| VariableList.TwoPassesLoseTwice | src/cmds/qsub.c:433-505 | such a function loses one newline in each pass |
| JobList.ExpandWrites | src/cmds/qsub.c:521-618 | for any -v text the list is exactly what is written for its tokens, in order, each as if it stood alone, and expand_varlist fails exactly if one of them fails |
| JobList.SecondPass | src/cmds/qsub.c:4123-4207 | set_job_env leaves a list that expand_varlist has written as it is, less qsub's own names, if all its texts are steady (no quote, commas exactly behind backslashes, no newline that a shell function loses); if no name is qsub's own, only if; the names are plain |
| JobList.StopsAtLine | src/cmds/qsub.c:433-505 | on such a list copy_env_value always stops in front of a whole entry, wherever an open quote takes it |
| JobList.WalkDoubles | src/cmds/qsub.c:4092-4219 | however set_job_env takes such a list apart, it writes every backslash and doubles those not in front of a comma |
| JobList.FoundIsSteady | src/cmds/qsub.c:433-505 | the text written for a value found in the environment is steady if and only if the value has no quote and no backslash and no newline after a semicolon is left in a shell function; then it stands for the value |
| JobList.JobListIsBuilt | src/cmds/qsub.c:4092-4219 | for any -v text with plain names: qsub gives up exactly if expand_varlist does, and otherwise sends the basic list and behind it exactly what was written, less its own names, if all texts are steady, and, if no name is its own, only if |
| JobList.QstatShowsTheJob | src/cmds/qsub.c:3853-3911 | from any -v text with plain names through the server to qstat: with steady texts the list sent is that of the basic variables and the variables named; the server keeps exactly these if and only if it can keep each, and qstat shows exactly these and the ones that the server adds if and only if it can also show each; without names of qsub's own all of it is right if and only if the three conditions hold |
| WholeEnv.TokensJoin | src/cmds/qsub.c:379-419 | what stands behind a comma is cut into tokens of its own, behind those of the text in front, if and only if that text ends inside a token; otherwise the tokens in front change or an empty one is added |
| WholeEnv.JobTokens | src/cmds/qsub.c:4092-4219 | the list of a job holds the tokens of the basic list, those of -v in order, and then exactly one for each exported variable, from which name and value come back, if and only if the basic list ends inside a token, when anything follows it, and every variable can be recovered |
| WholeEnv.ExportedAre | src/cmds/qsub.c:4019-4073 | the exported variables are the strings of the environment up to the first empty one that do not start with PBS_O_, one each and in their order |
| WholeEnv.BuildVariableList | src/cmds/qsub.c:4019-4219 | -V and -v from the options to the list stored: for any environment, basic list and -v text with plain names and steady texts, the tokens of the list are those of the basic list, those of -v and one for each exported variable exactly under these conditions |
| ServerList.CommaParser.Parse | src/lib/Libattr/attr_fn_arst.c:641-698 | the pointer walk delivers the next field without white space around it and without escaping backslashes, and leaves the static pointer behind its comma |
| ServerList.CountSubstrings | src/lib/Libattr/attr_fn_arst.c:711-747 | the number of fields by the commas that no backslash escapes, less one when the text ends in a comma of any kind, which is cut off |
| ServerList.DecodeArst | src/lib/Libattr/attr_fn_arst.c:765-906 | as many fields as were counted, in order |
| ServerList.EncodeArst | src/lib/Libattr/attr_fn_arst.c:941-1008 | the loop over the buffer of terminated strings writes them joined with commas, each special character escaped; nothing for no strings |
| ServerList.ServerKeepsTheList | src/lib/Libattr/attr_fn_arst.c:641-906 | the server, and so the job, gets exactly the variables of the list, in order, if and only if none has white space at an end, no backslash of a value is followed by a special character or the end, and the list does not end in a comma |
| ServerList.EndingCommaLosesVariable | src/lib/Libattr/attr_fn_arst.c:738-742 | an otherwise fine list that ends in a comma is kept without its last variable |
| ServerList.QstatShowsTheServersList | src/lib/Libattr/attr_fn_arst.c:941-1008 | of the server's text for a list of variables qstat shows exactly these if and only if every value is non-empty, does not start with a comma and has no quote and no backslash |
| Options.Registers.Process | src/cmds/qsub.c:2809-3291 | each of -q, -C, -N, -v, -I, -J, -r, of the keywords interactive and block of -W, and the end of the options changes registers, slots, attributes and the error count as the specification function says, in all branches |
| Options.Registers.NameOption | src/cmds/qsub.c:2973-3003 | -N adds the attribute, or replaces the value of every entry of that name |
| Options.Registers.ExtraOption | src/cmds/qsub.c:3095-3200 | the keywords of -W in order; a refused or conflicting one ends the option |
| OptionRules.Precedence | src/cmds/qsub.c:2795-2809 | the slot of -q, -C, -N or -v ends with the value of the last occurrence from the highest-priority source that uses it, over any sequence of occurrences |
| OptionRules.RegisterIsHighest | src/cmds/qsub.c:2795-2809 | the register is the highest priority that used the option, and an unused option leaves its slot alone |
| OptionRules.OthersStay | src/cmds/qsub.c:2809-3291 | no modelled option changes the register or slot of another one of -q, -C, -N and -v |
| OptionRules.ModesExclude | src/cmds/qsub.c:2902-3048 | after any run, faulty options included: never array and interactive, never block and interactive, and an array can be run again |
| OptionRules.AttributesAgree | src/cmds/qsub.c:2902-3048 | after any run the attributes for array and interactive are there if and only if their registers are set, and the last -r attribute is roptarg |
| OptionRules.ArrayValues | src/cmds/qsub.c:2924-2942 | after any run the array attributes are exactly the ranges of the -J that were accepted, in their order: for a job neither interactive nor barred from running again, and from no source with less priority than one before |
| OptionRules.RerunValues | src/cmds/qsub.c:3023-3048 | after any run the rerun attributes are exactly the values of the -r that were accepted: y, or n for a job that is no array |
| OptionRules.PortIsGiven | src/cmds/qsub.c:2902-3291 | after any run every interactive and every block attribute carries the port |
| OptionRules.RefusedChangesNothing | src/cmds/qsub.c:2902-3048 | short of -W an option is an error exactly when it breaks a rule, and then changes nothing else but the register of -r |
| OptionRules.ItemErrors | src/cmds/qsub.c:3095-3200 | an argument of -W is at most one error, and none when it can be taken apart, its values are true or false and the job is no array |
| OptionRules.CaseDoesNotMatter | src/cmds/qsub.c:3156-3195 | true and false are recognised in any mixture of small and capital letters, and nothing else is |
| OptionRules.GivesUp | src/cmds/qsub.c:3068-3089 | over any run qsub gives up if and only if a -v that no earlier one outranks names a variable that cannot be had |
| OptionRules.HandOverKeepsRerun | src/cmds/qsub.c:4648-4720 | no default option makes an array of a job handed over that is not to be run again, if and only if not both the last -r said n and the background qsub's own roptarg is y |
| OptionRules.BothInList | src/cmds/qsub.c:2902-3291 | after any run from neither attribute, both block and interactive are in the list if and only if the end of some source put block there and a later option was accepted that made the job interactive |
| OptionSources.BothFromSources | src/cmds/qsub.c:2902-3291 | over any calls of process_opts, with arrays and wrong values too: both are in the list if and only if, of the requests for interactive and the -J that -r does not forbid, the first is one for interactive, and a call in front of it ended with block asked for |
| OptionSources.BothWithoutArrays | src/cmds/qsub.c:2902-3291 | without arrays and with true or false as values: if and only if some call asks for interactive and one in front of the first such call asks for block, whatever their priorities |
| OptionRules.BlockAttributeStays | src/cmds/qsub.c:3290-3291 | a job with the block and the interactive attribute |
| Submission.StepKeepsInv | src/cmds/qsub.c:5796-5865 | every step of every process, crashes included, keeps the invariant that ties foregrounds to background processes |
| Submission.RunKeepsInv | src/cmds/qsub.c:5796-5865 | so does every run |
| Submission.AtMostOnce | src/cmds/qsub.c:5796-5865 | over all interleavings and crashes neither side enters do_submit2 twice for a job, and both do so only if the read of an acknowledgement that was sent has failed |
| Submission.FinishedOutcome | src/cmds/qsub.c:6237-6248 | for a finished foreground, by equivalences: it submitted itself, the job went in twice, and the job went in not at all, each exactly under its condition on acknowledgement, lost read, reachable server and daemon; a daemon that acknowledged and did not submit has stopped or has yet to; an answer means that one submitted |
| Submission.ExactlyOnce | src/cmds/qsub.c:6237-6248 | without crash and failure every finished foreground's job was submitted exactly once |
| Submission.RankFalls | src/cmds/qsub.c:5930-5993 | every step of a foreground other than its death lowers its rank, and no step of another process changes it |
| Submission.AlwaysCanFinish | src/cmds/qsub.c:5930-6062 | from every state of every run, a foreground that is alive can be brought to its end by steps that are no faults |
| Submission.FirstSubmitsItself | src/cmds/qsub.c:6237-6248 | the first qsub of a user finds no daemon, submits its job itself, once, and leaves a waiting daemon behind |
| Submission.LostAckSubmitsTwice | src/cmds/qsub.c:6035-6062 | a run that submits twice |
| Submission.DeadDaemonLosesJob | src/cmds/qsub.c:6035-6062 | a run that submits never |
| Submission.DaemonSubmits | src/cmds/qsub.c:5796-5865 | a run without faults in which the background qsub submits |
| WireEndpoint.DoSend | src/cmds/qsub.c:4367-4415 | success means that all bytes went out, in whatever pieces; failure that not all did and that a send has failed |
| WireEndpoint.DoRecv | src/cmds/qsub.c:4308-4351 | success means that exactly the bytes asked for were read, in whatever pieces |
| WireEndpoint.RecvString | src/cmds/qsub.c:4589-4599 | a string arrives as it was sent and nothing behind it is read |
| WireRequest.Endpoint.ResizeDaemonBuf | src/cmds/qsub.c:4245-4264 | room for what is needed, with the bytes already written kept |
| WireRequest.Endpoint.SendAttrl | src/cmds/qsub.c:4431-4479 | the attribute list goes out in the format of the encoder, absent resources apart from empty ones |
| WireRequest.Endpoint.ParseBlock | src/cmds/qsub.c:4520-4574 | a block of entries is read back as as many entries in the same order, with the names, resources and values sent, except that a variable list without resource has the host variable behind its value |
| WireRequest.ArrivedAre | src/cmds/qsub.c:4558-4564 | the same of the function that the reading methods are tied to |
| WireRequest.Endpoint.RecvOpts | src/cmds/qsub.c:4690-4720 | the 35 registers arrive |
| WireRequest.Endpoint.SendRequest | src/cmds/qsub.c:6022-6033 | success exactly when the whole request is on the socket; failure only behind a failed send or without memory |
| WireRequest.Endpoint.ReceiveRequest | src/cmds/qsub.c:5796-5807 | from a peer that may vanish at any byte: all nine items as they were sent, a variable list without resource gaining the host variable; or a failure, of the socket or for want of memory or of bytes |
| WireRequest.Transfer | src/cmds/qsub.c:5796-5807 | under any fragmentation: what is received was sent completely and has all nine items, a variable list without resource gaining the host variable; what is not sent or not received met a failed send or read or a want of memory |
| WireCodec.IntRoundTrip | src/cmds/qsub.c:4494-4504 | an int of the wire format is read back |
| WireCodec.OptsRoundTrip | src/cmds/qsub.c:4648-4720 | the registers printed as text are read back, whatever the number of their digits |
| WireUnique.EncodingIdentifies | src/cmds/qsub.c:6022-6033 | two requests have the same bytes if and only if they differ at most in null against empty strings |
| WireUnique.AttrUnique | src/cmds/qsub.c:4431-4479 | an entry can be read off the bytes in one way only; absent and empty resource differ |
| WireUnique.StringUnique | src/cmds/qsub.c:4494-4504 | so can a string |
| Retry.Submitter.DoSubmit2 | src/cmds/qsub.c:5197-5271 | the number of attempts, what each of them starts from and the result, for any verdicts of the server |
| Retry.Submitter.SaveOriginals | src/cmds/qsub.c:5209-5235 | list and -v string are saved when there are any, the registers always |
| Retry.Submitter.RestoreOriginals | src/cmds/qsub.c:5241-5263 | and put back before the next attempt |
| Retry.RetryIsolation | src/cmds/qsub.c:5197-5271 | every attempt starts from the same attribute list, -v string and registers, whatever the earlier ones did, if and only if there are a list and a -v string |
| Retry.WholeStateIsolation | src/cmds/qsub.c:4988-5076 | with a list and a -v string, all attempts start in the very state of the first if and only if none that is followed by another changed R_opt or the destination, which are not saved |
| Retry.AttemptsFollowUpdates | src/cmds/qsub.c:5236-5271 | no attempt follows one that did not ask for an update |
| Retry.ResultMeaning | src/cmds/qsub.c:5236-5271 | one to six attempts, at most one accepted; 0 exactly when one was accepted before the sixth |
| Retry.FirstVerdictDecides | src/cmds/qsub.c:5236-5271 | the first attempt that does not ask for an update decides: an acceptance gives 0 and a failure its own code, unless it is the sixth, which gives PBSE_PROTOCOL |
| Retry.SixthAcceptanceIsReportedAsFailure | src/cmds/qsub.c:5266-5271 | an accepted job reported as a failure |
| CommandSplit.RequestReader.GetRequest | src/cmds/qmgr.c:3425-3504 | delivers the first command verbatim and leaves the rest of the line in the buffer, which shrinks |
| CommandSplit.RequestReader.TakeAll | src/cmds/qmgr.c:3425-3504 | repeated calls deliver exactly the commands of the line and end with the buffer empty |
| CommandSplit.CommandsAreWellShaped | src/cmds/qmgr.c:3425-3504 | in a line that does not begin with white space no command contains the end of a command or begins with white space, and all but the last have their quotes closed |
| CommandSplit.JoinSplits | src/cmds/qmgr.c:3425-3504 | well shaped commands, the last not empty, are exactly what their join with semicolons splits into |
| CommandSplit.QuotedSemicolonStays | src/cmds/qmgr.c:3450-3480 | in a piece of text between quotes, wherever it stands in the line, neither a semicolon nor a number sign ends a command, and behind it the text is unquoted again |
| CommandSplit.CommentsBegin | src/cmds/qmgr.c:3471-3476 | without quotes and semicolons the only command ends in front of the first number sign that begins the line or stands behind white space, and the rest is dropped |
| CommandSplit.SemicolonsEnd | src/cmds/qmgr.c:3459-3504 | text without quotes and number signs in front of a semicolon is a command, and what follows, without leading white space, is split as a line of its own |
| ServerPool.Qmgr.Point | src/cmds/qmgr.c:3073-3074 | a new reference keeps every count equal to the number of names that refer to the server |
| ServerPool.Qmgr.Unpoint | src/cmds/qmgr.c:3985-3988 | so does giving one up |
| ServerPool.Qmgr.UnreferencedIsUnused | src/cmds/qmgr.c:4162-4177 | close_non_ref_servers spares a server if and only if some allocated name refers to it |
| ServerPool.Qmgr.CloseNonRefServers | src/cmds/qmgr.c:4162-4177 | exactly the servers with references stay, in their order; the others are disconnected; nothing dangles |
| ServerPool.Qmgr.DisconnectFromServer | src/cmds/qmgr.c:3915-3944 | one server leaves the list and the counter follows |
| ServerPool.Qmgr.ConnectServers | src/cmds/qmgr.c:1627-1664 | new connections come in front of those in use, one for each name considered that could be connected, each under its name; no connection was to be had for the others; the limit is looked at once |
| ServerPool.Qmgr.ConnectAll | src/cmds/qmgr.c:1243-1245 | all servers of the command line are connected under their names, even beyond the limit, unless one of them cannot be |
| ServerPool.Qmgr.FindServer | src/cmds/qmgr.c:3869-3882 | a server of that name if there is one, and otherwise none |
| ServerPool.Qmgr.CommaList | src/cmds/qmgr.c:3007-3094 | one new name for each entry with its object and server, which refers to a connection if and only if there is one to its server, and then to one that bears the server's name |
| ServerPool.Qmgr.TempObjName | src/cmds/qmgr.c:4133-4153 | the static name gives up its old reference before it takes a new one |
| ServerPool.Qmgr.FreeObjNameList | src/cmds/qmgr.c:3846-3996 | all names of the list are freed and their references given up |
| ServerPool.Qmgr.SetActive | src/cmds/qmgr.c:2356-2456 | on success the names take the place of the active list, whose names are freed, and every name that did not refer to a server refers to one that bears the name of its object or its server; on failure the active lists stay, wrong servers and schedulers are freed, wrong queues and nodes not, and there is a reason: a connection that could not be made, the limit, or an object that its server does not know |
| ServerPool.Qmgr.SetActiveLeaking | src/cmds/qmgr.c:2402-2447 | what set active leaks: the names given, exactly when it fails for a kind other than servers and schedulers |
| ServerPool.StaticNameStays | src/cmds/qmgr.c:2741-2961 | the static name refers to a server after the turns of a command if and only if a turn of its own was skipped, or it did before, and no turn since was its own or asked a server |
| ServerPool.Qmgr.AskServer | src/cmds/qmgr.c:2622-2962 | one turn, put down in the record of turns: no connection (only when none could be made or none more is allowed), a skipped import or export, a refusal or an answer, at the server that the name refers to or at one connected under its name, over an open connection; what becomes of the static name |
| ServerPool.Qmgr.AskEach | src/cmds/qmgr.c:2615-2963 | every turn, in order and as recorded: about each object once at the server that it refers to, or one connected under the server name that it has, or else once at every active server in order; all of them up to a refusal at which qmgr ends; an error exactly if one of them failed |
| ServerPool.Qmgr.Request | src/cmds/qmgr.c:2589-2967 | the same about the names given or implied; the names allocated are freed unless qmgr ends |
| ServerPool.WishesMatch | src/cmds/qmgr.c:2615-2636 | the turns wished for are, in order, one for each object that names a server, at a server of that name, and one at each active server for every other object |
| ServerPool.WentCarried | src/cmds/qmgr.c:2615-2963 | turns that went by these wishes do the errands of the command in order, at servers that bear the names given; the code is 1 behind a lost connection, 2 behind a refusal with -a, and 0 when all were done |
| ServerPool.Qmgr.ExecuteRequest | src/cmds/qmgr.c:2589-2967 | a whole command from its entries: its turns do exactly the errands that the entries ask for, and the active servers stay the same, except that they may be connected |
| ServerPool.Qmgr.Execute | src/cmds/qmgr.c:2556-2967 | set active makes no turn and leaves the active servers connected under the names given; any other command does its errands |
| ServerPool.Qmgr.ImportOfMissingFile | src/cmds/qmgr.c:2785-2808 | behind an import of a missing file into a hook of a connected server qmgr goes on with the static name referring to that server |
| ServerPool.Qmgr.Start | src/cmds/qmgr.c:1225-1249 | qmgr goes on with one active server for each entry, connected under its name, or ends with 3 because there is none or one cannot be connected; the exit with 4 cannot happen |
| ServerPool.Qmgr.Session | src/cmds/qmgr.c:1273-1290 | over any sequence of commands and answers: the turns recorded are those of the commands, each command having done its errands at the active servers that the commands before it have left, and no turn goes without a connection that could be made; the status is 0 exactly if no command ended qmgr; counts are exact, no name refers to a closed server, the number of connections stays within the limit or what it was; a leaked name stays leaked and keeps its server connected, and the number of leaked names grows by exactly what the commands leak; without set active nothing else stays allocated; with usable files the static name stays clear |
| JobBatch.Express | src/cmds/qstat.c:2625-2868 | the loop with its five variables sends the queries of the specification machine; a usage error comes exactly if an operand is no job, and nothing is sent from the first such on |
| JobBatch.QueriesAreBatches | src/cmds/qstat.c:2638-2682 | the queries are one for each longest run of jobs of one server, in order and at that server, if and only if the default server's jobs come first (not mixed with others when the default is unknown) and the last operand is legal or none is |
| JobBatch.NoJobIsLost | src/cmds/qstat.c:2638-2682 | whatever the order, the jobs are asked for once each and in order, if and only if the last operand is legal or none is |
| JobBatch.TextsOfBatches | src/cmds/qstat.c:2644-2662 | the runs hold every job once, in order |
| JobBatch.QueriesNameJobs | src/cmds/qstat.c:2638-2682 | read back at the commas, the queries of the batches name every job once, in order and at its own server, the default server for a job that names none, if and only if no identifier holds a comma |
| JobBatch.ServersReadTheJobs | src/cmds/qstat.c:2638-2682 | the same of what qstat sends for operands in order |
| JobBatch.SentInFrontOfDown | src/cmds/qstat.c:2638-2732 | whatever the order of the operands and whichever servers are down, the queries sent are exactly those in front of the first one, of those sent with all servers up, whose server is down |
| JobBatch.DownQueriesTakeAlong | src/cmds/qstat.c:2638-2732 | in any order, every query whose server answers is sent if and only if none stands behind one whose server is down |
| JobBatch.SentUpToFirstDown | src/cmds/qstat.c:2638-2732 | for ordered operands these are exactly the batches due in front of the first one whose server is down |
| JobBatch.DownServersTakeAlong | src/cmds/qstat.c:2638-2732 | for ordered operands and a legal last one, every job whose server answers is asked for if and only if none stands behind a job whose server is down |
| JobBatch.OneDownTakesNextAlong | src/cmds/qstat.c:2715-2732 | jobs of a server that answers are not asked for because the one before is down |
| SizeText.CnvSize | src/cmds/qstat.c:622-690 | prints the exact size rounded up once, in the least unit from the starting unit on in which that is at most 9999 |
| SizeText.ExactIsLeast | src/cmds/qstat.c:660-676 | the number printed is the least number of units that holds the bytes; eight bytes are a word |
| SizeText.LettersMean | src/cmds/qstat.c:644-653 | k, m, g and t mean 1024, 1048576, 1073741824 and 1099511627776, and w eight bytes each |
| SizeText.OptionsMean | src/cmds/qstat.c:651-668 | printing starts with the megabytes, megawords or gigabytes that the option asks for, and without one with the unit given, in words if w was |
| SizeText.NextUnit | src/cmds/qstat.c:660-676 | rounding up in steps of 1024 is rounding up once |
| SizeText.ExactShrinks | src/cmds/qstat.c:660-676 | a larger unit never prints a larger number |
| SizeText.SuffixExists | src/cmds/qstat.c:631-640 | the table of suffix letters is long enough if and only if the size is below the bound |
| Bitfields.Bitfield.ClrAll | src/include/bitfield.h:189-194 | the empty set |
| Bitfields.Bitfield.SetAll | src/include/bitfield.h:196-201 | all positions |
| Bitfields.Bitfield.IsZero | src/include/bitfield.h:206-215 | whether the set is empty |
| Bitfields.Bitfield.IsOnes | src/include/bitfield.h:217-226 | whether it is the set of all positions |
| Bitfields.Bitfield.NumOnes | src/include/bitfield.h:239-252 | the cardinality of the set |
| Bitfields.Bitfield.LsOne | src/include/bitfield.h:254-281 | the minimum, or -1 |
| Bitfields.Bitfield.MsOne | src/include/bitfield.h:283-310 | the maximum, or -1 |
| Bitfields.Bitfield.SetB | src/include/bitfield.h:177-179 | adds the position and no other |
| Bitfields.Bitfield.ClrB | src/include/bitfield.h:180-182 | removes it |
| Bitfields.Bitfield.TstB | src/include/bitfield.h:183-185 | membership |
| Bitfields.Bitfield.Eq | src/include/bitfield.h:312-321 | the sets are equal |
| Bitfields.Bitfield.SetM | src/include/bitfield.h:337-345 | union |
| Bitfields.Bitfield.ClrM | src/include/bitfield.h:347-355 | difference |
| Bitfields.Bitfield.AndM | src/include/bitfield.h:357-365 | intersection |
| Bitfields.Bitfield.CpyNotM | src/include/bitfield.h:399-407 | complement |
| Bitfields.Bitfield.OrNotM | src/include/bitfield.h:409-417 | union with the complement |
| Bitfields.Bitfield.TstM | src/include/bitfield.h:367-376 | the sets overlap |
| Bitfields.Bitfield.TstAllM | src/include/bitfield.h:378-387 | inclusion |
| Bitfields.CountOnes | src/include/bitfield.h:239-252 | clearing the lowest one until nothing is left counts the ones |
| Bitfields.LowestOne | src/include/bitfield.h:254-281 | the sliding bit finds the lowest one |
| Bitfields.HighestOne | src/include/bitfield.h:283-310 | and the highest one |
| BitSets.MembersCount | src/include/bitfield.h:239-252 | the ones of all words are as many as the members of the set |
| BitSets.MembersIdentify | src/include/bitfield.h:312-321 | different words are different sets |
| BitShift.ShiftL | src/include/bitfield.h:422-435 | the loop over the words, in place |
| BitShift.ShiftR | src/include/bitfield.h:437-450 | likewise |
| BitShift.TwoWordsDouble | src/include/bitfield.h:422-435 | with two words the number is doubled modulo 2^128 |
| BitShift.TwoWordsHalve | src/include/bitfield.h:437-450 | and halved |
| BitShift.ShiftsNeedTwoWords | src/include/bitfield.h:422-450 | for n > 0 words both shifts move all numbers by one position if and only if n is two |
| EventLoop.TaskManager.Poll | src/lib/Libifl/tm.c:1309-1420 | fails, or delivers an outstanding event and stores the task id of a successful spawn, or, once the connection has ended and ever after, reports the null event as a success and changes nothing |
| EventLoop.Dsh.WaitForTask | src/cmds/pbsdsh.c:106-182 | up to the end of the connection the loop ends within two polls for each outstanding spawn; normally only when every spawn and every end of a task in its window was delivered and no spawn is outside; when a signal has come in, and only then, it kills exactly the tasks of the window that are alive, at once if it came before; when the connection ends it is left with status 3, and then only |
| EventLoop.Dsh.Scan | src/cmds/pbsdsh.c:143-180 | one delivered event is accounted for in one slot, and the counters stay the numbers of outstanding spawns and ends |
| EventLoop.Dsh.SpawnReturned | src/cmds/pbsdsh.c:145-170 | the end of a started task is asked for unless -o is given, and counted exactly when it was registered |
| EventLoop.Dsh.KillAll | src/cmds/pbsdsh.c:125-131 | the signal that came in goes to the tasks of the window that are not null, in order |
| EventLoop.KillsAre | src/cmds/pbsdsh.c:125-131 | every task of the window gets the signal as often as it is there, and no other task gets one |
| EventLoop.Dsh.WaitOn | src/cmds/pbsdsh.c:117-180 | what the loop does once tm_poll answers with the null event only, for windows whose spawns have numbers: each answer takes from the count of ends the number of slots without a number for the end of their task, whose task ids become null; it ends when the counters are 0 or on a signal, not before |
| EventLoop.Dsh.LeftWaitEnds | src/cmds/pbsdsh.c:117 | such a wait ends if and only if no spawn is counted and the number of those slots is not 0 and divides the count of ends |
| EventLoop.Dsh.NullAnswersMiscount | src/cmds/pbsdsh.c:143-180 | null answers leave the counters right if and only if there is no such slot |
| EventLoop.NullEventEndsTheWait | src/cmds/pbsdsh.c:171-180 | a state in which one null answer ends the wait although the end of a task is outstanding |
| EventLoop.NullEventsNeverEnd | src/cmds/pbsdsh.c:171-180 | a state in which no number of them does |
| EventLoop.Dsh.Run | src/cmds/pbsdsh.c:371-392 | tm_spawn is called once for each copy, in order, on the nodes in turn, and a copy counts exactly if its call succeeded; all copies are asked for unless a wait in between ends badly; all are dealt with; while the connection lasts, with no signal and no failing poll, pbsdsh ends normally if it waits for each copy alone or no spawn succeeded after one that failed, and otherwise not; status 3 exactly when the connection has ended during a wait |
| EventLoop.WindowCovers | src/cmds/pbsdsh.c:371-392 | as many slots from the start as there were successes hold them all if and only if no success follows a failure |
| MemScale.ScaleDown | src/cmds/pbsnodes.c:421-442 | the loop ends at or below 999 after the least number of turns, with the amount rounded once in that unit, or one more exactly when the remainder is in the gap |
| MemScale.StepIsHalfUp | src/cmds/pbsnodes.c:421-442 | each turn rounds to the nearest, halves up |
| MemScale.Drift | src/cmds/pbsnodes.c:421-442 | after k turns the error is within the bound 1024 * (1024^k - 1) for twice 1023 times the deviation |
| MemScale.Convert | src/cmds/pbsnodes.c:421-442 | the assigned amount in the unit of the total, likewise |
| MemScale.MemInfo | src/cmds/pbsnodes.c:403-450 | the two amounts shown and their letters: each the nearest amount in its unit, or one more exactly when the remainder is in the gap, and each unit the first in which the amount is at most 999 |
| MemScale.RoundingOnceIsEnough | src/cmds/pbsnodes.c:421-442 | rounding in each of k turns gives the nearest amount if and only if the remainder is not in a gap below one half, and one more there |
| MemScale.RepeatedRoundingDrifts | src/cmds/pbsnodes.c:421-442 | an amount shown as 2 that is nearer to 1 |

## Left out

- Sockets, fork, terminals, X11, credentials, Windows branches, files and the script copy: only the FIFO order, short
  reads and writes, failures and crashes of the socket are modelled, and the attribute that a password needs is not
  sent.
- Server calls (`pbs_*`, `cnt2server`, `tm_*`): any answer is possible; what they do is not modelled.
- The parsing behind options, operands and requests: `getopt`, `parse_equal_string`, `set_resources`, `get_server`,
  `parse` of qmgr and the `strtol` of `cnv_size` deliver their results as inputs.
- Options other than -q, -C, -N, -v, -I, -J, -r and the keywords interactive and block of -W: each has a register of its
  own and repeats the pattern of -q; unknown keywords of -W, which set attributes directly, are left out with them.
- Fixed buffers and machine overflow: sizes fit, and numbers are unbounded where the source assumes that they fit.
- Allocation failures other than those of `resize_daemon_buf`; strings with NUL inside.
- Blocks on the wire that no qsub sends: the peer of a background qsub is always a qsub that may stop at any byte.
- `job_env_basic`, `cmp_est_time`, `cmp_jobs`, history editing, printing and JSON nodes, and the trivial macros of
  `bitfield.h` that copy, compare or negate others.
- QstatEnv.PrtAttrV: reads `*(pc + 1)` behind the terminator are not modelled beyond the report that the splitter has
  run past it.
- Retry.Submitter.DoSubmit2: what an attempt does to the globals is arbitrary, not derived from the server's defaults.
- ServerPool.Qmgr.Session: names come parsed, a name without a server is connected under the empty name, and
  `clean_up_and_exit`, which closes all servers at the end whatever refers to them, is not modelled. Which files cannot
  be used is an input.
- ServerList.CommaParser.Parse: the read in front of the buffer that comes with an empty first field is not modelled.
- ServerList.DecodeArst: an attribute that has a value already, and `set_arst` beyond appending the server's variables.
- JobList.JobListIsBuilt: names have no quotes, backslashes or commas; with names of qsub's own, whose variables are
  dropped, only the one direction is stated, because a changed text that is dropped does not show.
- JobList.QstatShowsTheJob: likewise. The variables that the server adds are taken as they are stored there.
- WholeEnv.BuildVariableList: names of -v as there, names of the environment without quotes, backslashes and commas, and
  no X11 forwarding, which adds one refusal (`VariableList.WalkEntriesX11`); texts that a second pass changes are the
  matter of `JobList.JobListIsBuilt`.
- EventLoop.TaskManager.Poll: the reuse of event numbers after 2^31 of them.
- EventLoop.Dsh.WaitOn: slots whose failed spawn has left the null number, and what pbsdsh does behind such a wait.
- JobBatch.Express: answers of the servers, `locate_job` for unknown jobs and the sorting of the operands are not
  modelled.
- MemScale.ScaleDown: the printed letters beyond the table of units are not modelled.

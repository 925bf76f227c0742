# A verified model of the pgmi SQL pipeline and deployment run

pgmi deploys a PostgreSQL project by running one script, `deploy.sql`, after
loading the project's files into session tables. This project models, in Dafny,
the code between the script's text and the server, and proves what the code
promises about it.

* **Scanner** (`Text`, `Lexer`, `LexerLaws`, `Cuts`, `Comments`, `Grammar`). A script is a
  sequence of code points; `Encode` gives its bytes. One step function describes
  the six states of PostgreSQL's lexical rules (sections 4.1.2.1, 4.1.2.2,
  4.1.2.4 and 4.1.5 of its documentation): nested comments, `''` and `E'..\'..'`
  literals, quoted identifiers and `$tag$` bodies. The source's loops are index
  loops proved to refine it. Which code points beyond ASCII are letters or digits
  is a parameter, so every statement holds for every such choice. `Grammar` gives the
  same rules as a grammar of elements that knows nothing of the machine, and proves
  that the machine follows it.
* **Splitter** (`Words`, `Split`, `SplitLaws`, `OnePass`, `Positions`). The units
  of a script, the independent one-pass reading they are compared with, and what
  becomes of error positions.
* **Checksum** (`Checksum`, `ByteScan`, `ChecksumLaws`, `IdempotenceLimit`,
  `Layout`, `LetterCase`, `Fields`, `Agreement`). The byte-wise twin of the scanner, the normal form that
  is hashed, and where the twins agree.
* **Deployment** (`Macros`, `Statements`, `Server`, `Locks`, `Sessions`, `Execute`,
  `Limits`, `Deployment`). Macro expansion; the server's own reading of a message,
  with tokens and a grammar that the splitter does not share; an abstract server that
  runs messages statement by statement, with failures anywhere; the advisory lock as a
  state machine over all interleavings of any number of deployments; the session
  objects, whose requests, units included, are runs of that machine; the run of the
  units; and the whole of Deploy on one connection, with its event log.
* **Satellites** (`TestTree`, `Managed`, `AdoNet`, and what is shared in `Trimming`,
  `Options` and `Sequences`). The tree of test directories, managed files with
  their stamp, and connection strings of key/value pairs.

The scanner's methods take the text as code points, as the source's rune slice
does. Results that the source reports as bytes are byte strings: sequences of
characters below 256. What is random, remote or elapsed time in the source is a
parameter: `fates` says at which statement each message fails, `World` and
`Answers` say what the server and the user answer, and the library's case folding
is a function.

Some of the properties one might expect are false of the code; each is stated
with its condition and with an input on which it fails.

* `UnitsCommitted` counts units that ran without error. Where they leave an explicit
  block open, their work is rolled back: by the failure of the next unit, or, when
  every unit ran and the deployment succeeded, by the ROLLBACK of Close.
  `Execute.CountIsOfDurableUnits` reads the exact condition off the statements;
  `Limits.CountCanExceedEffects` and `Limits.SuccessCanBeRolledBack` are scripts.
* A failing unit, the head in atomic mode included, leaves the durable state as it
  was exactly if none of the server's statements before its last is a COMMIT or a
  PREPARE TRANSACTION that meets work: `Server.AtomicExactly`. Where splitter and
  server cut the script alike, only PREPARE TRANSACTION is left of this condition
  (`Server.UnitEndsOnlyAtItsEnd`, `Server.FailingUnitIsAtomic`), because the splitter
  does not take it for a terminator (`Statements.SplitterAgrees`);
  `Limits.FailingHeadCanKeepWork` is a script.
* The splitter takes every BEGIN ATOMIC for the start of a routine body, in a query
  too. It cuts where the server does exactly under the condition of
  `Statements.CutsAgreeExactly`, which `Statements.OrdinaryReadAlike` meets for
  routine definitions and for all text without the word ATOMIC;
  `Limits.QueryCanReadAsBody` is a script whose atomic mode is not atomic.
* A test directory that is the marker followed by an empty component is as deep
  as its parent: `TestTree.AboveIsShallower`, `TestTree.EqualDepthExample`.
* The padding of a tail unit counts bytes while positions count characters:
  `Positions.PaddedPosition` gives the difference in the column exactly,
  `Limits.ColumnsCanShift` a script.
* Normalizing twice is normalizing once unless white space beyond ASCII stands
  directly before an E and a literal in which a backslash covers a quote:
  `ChecksumLaws.NormalizeIsIdempotent`, `IdempotenceLimit.NormalizingTwiceCanDiffer`.
* A managed file round-trips exactly under the condition of
  `Managed.RoundTripExactly`. A body with an empty checksum line and no marker
  reads as edited (`Managed.EmptyKeyReadsEdited`, `Managed.EmptyKeyExample`); a
  body that is itself a file with an empty checksum reads as that file, unedited
  (`Managed.StampInBodyReadsUnedited`).

`internal/checksum/doc.go:11-15` describes an older normalization; the model
follows `internal/checksum/calculator.go:21-27` and the code.

## Model

| member | source | states |
|---|---|---|
| Comments.ExtractDollarTag | internal/preprocessor/comments.go:343-368 | the loop finds the longest-prefix dollar tag that the declarative `DollarTag` defines, or the empty text |
| Comments.MatchesDollarTag | internal/preprocessor/comments.go:371-383 | true exactly when the tag is a prefix of the unread text, without reading past the end |
| Comments.EscapeIsLook | internal/preprocessor/comments.go:314-325 | the look-back over two characters equals a finite summary of all text read so far, with runes as with the bytes of the checksum scanner |
| Comments.ByteOffsets | internal/preprocessor/comments.go:119-129 | entry k of the filled array is the number of UTF-8 bytes of the first k runes, the end included |
| Comments.OneStep | internal/preprocessor/comments.go:130-307 | one loop round, in any state, consumes, writes and moves on as one step of the lexer |
| Comments.ScanSql | internal/preprocessor/comments.go:99-307 | the loop's text and comment spans are those of the step-function lexer, for every input and both outputs |
| Comments.Strip | internal/preprocessor/comments.go:67-69 | the stripped text is the lexer's comment-free output |
| Comments.RedactForMacros | internal/preprocessor/comments.go:74-76 | the mask is the lexer's length-preserving output |
| Comments.BlockComments | internal/preprocessor/comments.go:80-84 | the spans are the top-level block comments, an unterminated one included |
| Comments.MaskIsFixedPoint | internal/preprocessor/comments.go:67-84 | every mask byte is the source byte or a space and lengths agree; masking or stripping the mask changes nothing; the mask has no block comment |
| LexerLaws.OutputIsClean | internal/preprocessor/comments.go:99-307 | by induction over the whole text: whatever was written so far, re-reading it passes through the matching states and meets no comment |
| LexerLaws.OutputIsFixedPoint | internal/preprocessor/comments.go:99-307 | for every output but Strip, producing it again from itself changes nothing, and so does stripping it; unterminated text included |
| LexerLaws.CleanIsUnchanged | internal/preprocessor/comments.go:99-307 | text in which the lexer opens no comment and writes every step as read is its own output |
| Cuts.ScanSplits | internal/preprocessor/comments.go:99-307 | wherever the scan stands between two steps, its output is that of the part before plus that of the part after, taken up in the state and look-back reached |
| Cuts.MaskBytes | internal/preprocessor/comments.go:99-307 | from any state the mask has the byte length of the text and differs only by spaces |
| Cuts.SemicolonReached | internal/preprocessor/comments.go:99-307 | every semicolon visible in a mask is a semicolon of the source read in the normal state, and the scan stands right after it in the normal state |
| Lexer.LookConcat | internal/preprocessor/comments.go:314-325 | the look-back summary of a concatenation is that of the second part taken up from the first |
| Lexer.LookLast | internal/preprocessor/comments.go:314-325 | the summary is decided by the last two runes, as the source reads them |
| Lexer.TagTailShape | internal/preprocessor/comments.go:343-368 | a dollar tag is made of letters, digits and underscores, no digit first, up to its closing dollar sign, and so without white space, slash or semicolon |
| Lexer.NextPrefix | internal/preprocessor/comments.go:343-368 | the unbounded look-ahead for dollar tags never reaches past the step it decides: cutting the text after the step leaves the step unchanged |
| Grammar.ElementScans | internal/preprocessor/comments.go:130-307 | an element of PostgreSQL's lexical grammar - a character, a dollar-quoted body up to the first place where its tag occurs, a constant with doubled quotes and, behind an E, backslash escapes, a quoted name, a line or a nested block comment, closed or running to the end - is scanned in every mode to what stands for it: in the mask its delimiters and one space per byte of its body; the grammar does not refer to the scanner's states |
| Grammar.EveryTextHasElements | internal/preprocessor/comments.go:130-307 | every text is a sequence of such elements |
| Grammar.ScanFollowsGrammar | internal/preprocessor/comments.go:99-307 | so for every text and mode the scan writes what the grammar says, element by element |
| Grammar.ElementInText | internal/preprocessor/comments.go:99-307 | wherever the scan of a text stands in its normal state before an element, it stands there again behind it, and has written what stands for the element |
| Grammar.StartsExactly | internal/preprocessor/comments.go:343-368 | a tag is found exactly where the text starts with a delimiter of the grammar |
| LetterCase.CaseIsFree | internal/checksum/calculator.go:99-104 | letters outside literals, names in quotes and dollar bodies may change between upper and lower case, A with a to Z with z, without changing the normalized bytes; the text keeps its elements |
| LetterCase.FoldOfElement | internal/checksum/calculator.go:105-241 | in the normal form no letter A to Z is left outside literals, nothing changes within them, and a comment becomes one space, its line end kept |
| Fields.NormalTextIsFields | internal/checksum/calculator.go:53-73 | the normal form is the fields between white space of the scanned text, joined by single spaces |
| Words.FirstWordOf | internal/preprocessor/split.go:222-240 | the two index loops find the first word, upper-cased, and the rest |
| Words.FindBeginAtomic | internal/preprocessor/split.go:141-154 | the loop finds what follows the first BEGIN ATOMIC with only white space between, if any |
| Words.FindsBodyEnd | internal/preprocessor/split.go:160-177 | the loop reports exactly whether an END not owed to an earlier CASE occurs |
| Words.ClosesBodyExactly | internal/preprocessor/split.go:156-177 | an unpaired END is found exactly if some first words behind BEGIN ATOMIC hold more ENDs than CASEs, both counted in the list of words |
| Words.FoundIsBehindAtomic | internal/preprocessor/split.go:141-154 | what the search for BEGIN ATOMIC returns stands behind the words BEGIN and ATOMIC of the list of words |
| Words.EndsTransaction | internal/preprocessor/split.go:195-218 | accepted statements: COMMIT, END, ROLLBACK or ABORT, an optional noise word, then nothing or AND |
| Words.TerminatorWords | internal/preprocessor/split.go:195-218 | a statement is a terminator exactly if its list of words starts with COMMIT, END, ROLLBACK or ABORT, goes on with WORK or TRANSACTION or neither, and then ends or has AND |
| Words.IsLeadingSpaceOnly | internal/preprocessor/split.go:181-190 | true exactly if only white space stands before the first letter or the end |
| Words.IsBlank | internal/preprocessor/split.go:246-255 | true exactly if every byte is a blank, tab, line feed or carriage return |
| Words.AtomicBody.Observe | internal/preprocessor/split.go:122-136 | answer and new `open` flag are those of the one-chunk specification, from either state of the flag |
| Words.ObserveAfter | internal/preprocessor/split.go:122-136 | letterless text before a chunk changes neither the answer nor the flag, so padding cannot |
| Words.TerminatorAfter | internal/preprocessor/split.go:195-218 | letterless text before a statement does not change whether it is a terminator |
| Words.TerminatorBefore | internal/preprocessor/split.go:195-218 | letterless text after a statement, its semicolon included, does not change whether it is a terminator |
| Split.PadPrefix | internal/preprocessor/split.go:266-279 | the filled array holds one newline per newline before the offset, then one space per byte since the last of them |
| Split.FindHead | internal/preprocessor/split.go:48-77 | the first loop finds the end of the first statement that is a transaction terminator, the whole script for an unterminated one, or -1 |
| Split.CutTail | internal/preprocessor/split.go:82-110 | the second loop yields one padded unit per non-blank statement after the head |
| Split.SplitMasked | internal/preprocessor/split.go:39-110 | the whole split, for masks of any length: one of another length than the script leaves the script whole |
| Split.SplitExecutionUnits | internal/preprocessor/split.go:39-110 | the program computes, for any bytes, the units that the laws below are about; for UTF-8 they are those of its text |
| Split.EndsAtSemicolon | internal/preprocessor/split.go:53-74 | a statement that ends, ends right after a semicolon of the mask |
| SplitLaws.MaskIsCompositional | internal/preprocessor/split.go:53-105 | at every offset at which the splitter may cut, the script is cut between two runes, the scanner is there in its normal state with nothing to look back on, and the mask of the script is the mask of the part before followed by the mask of the part after |
| SplitLaws.FindEndTransfers | internal/preprocessor/split.go:53-105 | reading a statement depends on its own text alone: the same bytes elsewhere, behind letterless text, end at the same place |
| SplitLaws.HeadEndCut | internal/preprocessor/split.go:48-77 | cut after its head, a script has the same head |
| SplitLaws.SplittingIsFixedPoint | internal/preprocessor/split.go:39-136 | every unit of every script, padded tail units included, is valid UTF-8 and splits into exactly itself |
| OnePass.EndsRestart | internal/preprocessor/split.go:82-86 | restarting with depth zero and no open body after a statement changes no later statement end |
| Statements.StatementEndIsTop | internal/preprocessor/split.go:53-74 | a statement ends at a semicolon before which as many parentheses close as open, counted from its start; without the word ATOMIC at the first such semicolon |
| OnePass.FirstTerminatorIsFirst | internal/preprocessor/split.go:60-80 | the piece it finds is a terminator and none before it is |
| OnePass.HeadIsFirstTerminator | internal/preprocessor/split.go:48-80 | the head ends where the first terminator among the pieces of one uninterrupted pass ends, and the rest of the pass is what follows |
| OnePass.TailIsPieces | internal/preprocessor/split.go:82-108 | the tail units are the non-blank pieces of that pass, one each, padded |
| OnePass.TwoPassesAreOne | internal/preprocessor/split.go:48-110 | the two-pass split equals the one-pass specification on every script and mask of equal length |
| OnePass.BlankMaskIsLayout | internal/preprocessor/split.go:106-108 | text whose mask is blank is white space once comments are stripped, so it held no literal |
| OnePass.SplittingConserves | internal/preprocessor/split.go:78-110 | script = first unit + tail units without padding + what was dropped, byte for byte, and what was dropped is white space and comments |
| Positions.ResolvePosition | pkg/pgmi/errors.go:181-203 | the loop resolves a position to line, column and the line's text without its carriage returns, and to nothing beyond one past the end |
| Positions.ResolvedLine | pkg/pgmi/errors.go:181-203 | the line number is one more than the newlines before the position, the column its place in the line around it, and the source line that line less the carriage returns at its end |
| Positions.NewlinesAreCounted | pkg/pgmi/errors.go:181-203 | newlines and nothing else are counted |
| Positions.LocateError | pkg/pgmi/errors.go:148-175 | a location exactly if the chain holds a script error and a positive position within its script; then name, line, column and text are those of the position |
| Positions.PaddedPosition | internal/preprocessor/split.go:257-279 | behind padding every character keeps its line; its column is kept exactly on later lines or after ASCII, and otherwise exceeds it by the extra bytes of what precedes the unit on its line |
| Positions.PadResolvesAsFullMask | internal/preprocessor/split.go:257-279 | the padding resolves as the mask that keeps newlines and blanks every other earlier byte |
| Positions.ErrorPositionsSurvive | internal/preprocessor/split.go:99-108 | for every unit of every script: the unit is blank padding and a stretch of the script, the first one the script's beginning without padding, and each of its places resolves to the same line and, under the condition above, the same column |
| Checksum.ExtractDollarTag | internal/checksum/calculator.go:245-269 | the byte loop finds the tag that the byte-wise `DollarTag` defines |
| Checksum.ScanContent | internal/checksum/calculator.go:105-241 | the byte loop's output, folded or not, is that of the byte-wise lexer |
| Checksum.RemoveComments | internal/checksum/calculator.go:95-97 | the text without comments is that of the byte-wise lexer |
| Checksum.CollapseRunes | internal/checksum/calculator.go:59-70 | the loop over the runes of the scanned bytes writes one space for every run of Unicode white space and every other rune as it is |
| Checksum.Normalize | internal/checksum/calculator.go:53-73 | byte scan with comments removed and case folded outside literals, Unicode white space collapsed, ends trimmed |
| ByteScan.BytesOfScan | internal/checksum/calculator.go:105-241 | scanning the bytes of a UTF-8 text, from any state, writes the bytes of what scanning its code points writes; so for comment removal and for the folding scan |
| ByteScan.NormalizedText | internal/checksum/calculator.go:53-73 | the normalized bytes of a UTF-8 text are the bytes of its normalized text |
| ChecksumLaws.LiteralReadsAlike | internal/checksum/calculator.go:190-241 | a literal in which no backslash covers a quote is read alike with and without escapes, and so is what follows it |
| ChecksumLaws.OutputIsTame | internal/checksum/calculator.go:105-241 | the scan writes white space beyond ASCII directly before an E and a quote only where the text has it |
| ChecksumLaws.CollapseKeepsClean | internal/checksum/calculator.go:53-73 | unless white space beyond ASCII stands directly before an E and a literal in which a backslash covers a quote, collapsing white space, inside literals too, opens no comment and makes no tag or quote pair, and no escape prefix that matters, in any state |
| ChecksumLaws.CleanTrimEnd | internal/checksum/calculator.go:53-73 | nor does trimming the end of collapsed text, unterminated literals and escapes included |
| ChecksumLaws.NormalizeIsIdempotent | internal/checksum/calculator.go:53-73 | normalizing twice equals normalizing once, for every UTF-8 text in whose scanned form, outside literals, no white space beyond ASCII stands directly before an E and a literal in which a backslash covers a quote |
| ChecksumLaws.NormalizeIsIdempotentOnTame | internal/checksum/calculator.go:53-73 | so for every text in which no such white space stands directly before an E and a quote |
| ChecksumLaws.NormalizeIsIdempotentOnAscii | internal/checksum/calculator.go:53-73 | so for every ASCII text |
| IdempotenceLimit.NormalizingTwiceCanDiffer | internal/checksum/calculator.go:276-281 | a text with a no-break space before an E and a quote on which the second normalization gives another text |
| Layout.LayoutIsFree | internal/checksum/calculator.go:53-73 | in any UTF-8 text, white space and closed comments between tokens may be exchanged for any other such text without changing the normalized bytes |
| Layout.CommentIsLayout | internal/checksum/calculator.go:122-187 | every closed block comment, nested ones included, is such text |
| Layout.CommentForSpace | internal/checksum/calculator.go:122-187 | a white space read between tokens may become any closed, possibly nested, block comment |
| Agreement.NextAgrees | internal/checksum/calculator.go:293-312 | on ASCII the rune-wise and the byte-wise step are the same, whatever counts as letter or digit beyond ASCII |
| Agreement.ScannersAgree | internal/checksum/calculator.go:105-241 | on ASCII both machines pass through the same states at the same offsets and write the same output in each mode |
| Agreement.SpansAreTheComments | internal/preprocessor/comments.go:80-307 | without line comments the output is the source with exactly the reported spans replaced, in order and apart, unterminated one included |
| Agreement.RemovalMatchesSpans | internal/checksum/calculator.go:86-103 | on ASCII without line comments, removeComments is the source with each span of BlockComments replaced by one space |
| Macros.CalculatePosition | internal/preprocessor/macros.go:123-137 | the loop counts line and byte column of an offset, clipped to the text |
| Macros.Detect | internal/preprocessor/macros.go:56-120 | the text searched is the mask, or the script itself when the mask is empty or not aligned with it; from matches in order and apart, one call each: starting at its CALL keyword, in order, apart and in range, with arguments read from the script and their position |
| Macros.CallReadsScript | internal/preprocessor/macros.go:88-113 | the arguments of a call are what the script itself holds in the groups, nothing for an absent group; the call starts at its CALL keyword, at most one rune into the match |
| Macros.SortReverses | internal/preprocessor/pipeline.go:63-67 | sorting by descending start reverses the calls that Detect returns |
| Macros.Splice | internal/preprocessor/pipeline.go:63-84 | the right-to-left loop equals simultaneous substitution into the original script of the texts that were generated, and fails exactly if some call is invalid or cannot be generated |
| Macros.SubstituteInterleaves | internal/preprocessor/pipeline.go:63-84 | a script with its calls replaced consists of the stretches between the calls, unchanged, and of the generated texts, in turn |
| Macros.Process | internal/preprocessor/pipeline.go:46-88 | mask, detect and splice together: the calls are those of the matches in the script's mask, in order and apart, each at a C that the mask shows; the result is the script with all of them substituted at once, or a failure exactly if one of them is bad |
| Statements.CutsAgreeExactly | internal/preprocessor/split.go:53-74 | the splitter's statement ends are the server's, which opens a body only in a CREATE FUNCTION or PROCEDURE and reads whole tokens, exactly if at every top-level semicolon both take the text before it alike |
| Statements.OpenBodyIsFound | internal/preprocessor/split.go:138-154 | a body that opens for the server is one that afterBeginAtomic finds, unless a form feed or vertical tab stands in the statement |
| Statements.OrdinaryReadAlike | internal/preprocessor/split.go:112-136 | so they cut alike every script in which each stretch between top-level semicolons shows no ATOMIC, or opens a routine body and holds behind every ATOMIC in no first words more ENDs than CASEs, or stands in a body and starts with a word |
| Statements.WithoutAtomicReadAlike | internal/preprocessor/split.go:112-136 | so they do every script without the word ATOMIC outside literals and comments |
| Statements.SplitterAgrees | internal/preprocessor/split.go:195-218 | a statement that ends the transaction by the server's grammar is accepted, PREPARE TRANSACTION apart; every statement that starts with a word, and goes on with one after an ending keyword, is taken alike exactly unless it is PREPARE TRANSACTION or has an AND without CHAIN |
| Statements.AlikeTransfers | internal/preprocessor/split.go:53-105 | reading alike depends on the text read alone: elsewhere, cut short or behind padding it is read alike too |
| Statements.UnitReadAlike | internal/preprocessor/split.go:39-110 | every unit of a script that is cut alike is cut alike |
| Server.MessagesSettle | internal/services/deployer.go:245-264 | no message leaves work pending outside an explicit block |
| Server.TrackFollows | internal/services/deployer.go:245-264 | after a message that ran, an open block and work to lose can be read off the kinds of its statements |
| Server.FailedMessageIsAtomic | internal/preprocessor/split.go:8-37 | a failing message in which only the last statement ends a transaction leaves the durable state unchanged |
| Server.UnitEndsOnlyAtItsEnd | internal/preprocessor/split.go:8-37 | in every unit of a script that splitter and server cut alike nothing but the last of the server's statements ends a transaction, PREPARE TRANSACTION apart |
| Server.AtomicExactly | internal/preprocessor/split.go:8-37 | any message leaves the durable state unchanged wherever it fails, exactly if no COMMIT and no PREPARE TRANSACTION before the last of the server's statements meets work to keep |
| Server.FailingUnitIsAtomic | internal/services/deployer.go:245-264 | a failing unit, head or tail, of a script that splitter and server cut alike leaves the durable state unchanged, wherever it fails and whatever is open, if it has no PREPARE TRANSACTION |
| Execute.RunUnits | internal/services/deployer.go:245-264 | units run in order up to the first that fails, which is the last one sent; on the connection this is a run of the lock machine |
| Execute.ExecuteDeploySQL | internal/services/deployer.go:209-265 | the units of the script with its calls expanded run up to the first failure, the first n of them; a failure reports unit n, which is the text last sent, and whether the script held calls, counts n units as committed, and is atomic exactly if that is 0; an unreadable file and a bad call are told apart, nothing is sent and the result is untouched |
| Execute.FailedUnitResolves | internal/services/deployer.go:241-259 | the text reported for a failure is blank padding and a stretch of the script that was split, and every position in it resolves to the stretch's place there; without calls that script is the file |
| Execute.SessionIsTracked | internal/services/deployer.go:245-264 | while units run on a fresh connection, what is open can be read off their statements |
| Execute.FailureKeepsEarlierUnits | internal/services/deployer.go:245-264 | after a failure in a unit that keeps nothing early the durable state is what the earlier units made it, and in atomic mode what it was at the start |
| Execute.ScriptKeepsNothingEarly | internal/services/deployer.go:245-264 | a unit without PREPARE TRANSACTION of a script that splitter and server cut alike keeps nothing early |
| Execute.RunsSettle | internal/services/deployer.go:245-264 | between units an idle or aborted session has nothing pending |
| Execute.CountIsOfDurableUnits | internal/services/deployer.go:245-264 | after Close the units counted as committed have kept their effects exactly if the statements of these units leave no block with work in it open, whether a unit failed or all ran |
| Limits.CountCanExceedEffects | internal/services/deployer.go:245-264 | a script whose last unit, a VACUUM, fails in a block: three units are counted as committed and the work of the third is lost |
| Limits.SuccessCanBeRolledBack | pkg/pgmi/session.go:31-36 | a script all four units of which run and are counted, and whose open block Close rolls back |
| Limits.FailingHeadCanKeepWork | internal/services/deployer.go:245-264 | a script of one unit that fails in atomic mode behind a PREPARE TRANSACTION: the prepared work stays |
| Limits.QueryCanReadAsBody | internal/preprocessor/split.go:122-136 | a script of one unit, because a column called begin with the alias atomic reads as a routine body, that fails in atomic mode behind a COMMIT: the committed work stays |
| Limits.BodylikeIsNotAlike | internal/preprocessor/split.go:122-136 | that script is not cut alike by splitter and server |
| Limits.ColumnsCanShift | internal/preprocessor/split.go:266-279 | a script with an accented letter before a tail unit on its line: the unit starts one column further behind its padding |
| Deployment.DeploymentService.CreateIfMissing | internal/services/deployer.go:289-304 | events and outcome: created only if the lookup found none, nothing after a failed lookup |
| Deployment.DeploymentService.Recreate | internal/services/deployer.go:337-370 | approval, settings, termination, drop and create with those settings: the events are a first part of these, and all of them exactly on success |
| Deployment.DeploymentService.HandleOverwrite | internal/services/deployer.go:307-370 | events and outcome of the overwrite workflow for every pattern of failures |
| Deployment.DeploymentService.EnsureDatabaseExists | internal/services/deployer.go:373-400 | a target that answers is left alone; only an undefined database is looked up and created |
| Deployment.DeploymentService.PrepareDatabase | internal/services/deployer.go:125-155 | events and outcome up to the session: the project is scanned and the compatibility checked before any database is touched |
| Deployment.DeploymentService.ExecuteAndClose | internal/services/deployer.go:166-174 | the units run, the counts and the mode, and the outcome, with the text last sent as the failing unit; then what is open is rolled back and the lock free; all of it one run of the lock machine |
| Deployment.DeploymentService.RunSession | internal/services/deployer.go:157-174 | preparation, execution and closing on one connection: no lock is left on a live connection whatever fails, and the steps are a run of the lock machine |
| Deployment.DeploymentService.Deploy | internal/services/deployer.go:119-174 | for every pattern of failures: each step is in the log exactly if the step before it is and the outside world allowed it, all in order and on the configured and the maintenance database; every result belongs to the last step taken and the answer that ended it; a failing unit is reported as the text last sent; without a preparation the connection is untouched, with one the lock safety of all deployments is kept and the units counted are durable exactly if they leave no block with work in it open |
| Deployment.ResultOfRun | internal/services/deployer.go:119-174 | success exactly if the script ran to its end; a concurrent deployment exactly if the database to create was there, or the preparation started and found the lock held; a preparation starts exactly if the steps before it succeed |
| Deployment.RunShows | internal/services/deployer.go:119-174 | read off the log and the answers alone: a preparation starts only on a database that answered, was found or was created, and for an overwrite only on one created in this run; each failure is reported exactly where its step was due and the answer was no; no step is taken twice or out of order or on another database |
| Deployment.SessionLaws | internal/services/deployer.go:157-174 | what the session steps of a run promise: the lock found held is reported, a failing unit is the text last sent, the count is honest under its condition, and the safety of the locks is kept |
| Deployment.DropIff | internal/services/deployer.go:119-155 | a database is dropped exactly if scan, compatibility, target, maintenance connection, lookup, approval, settings, termination and the drop itself succeed |
| Deployment.DropIsLast | internal/services/deployer.go:307-370 | before a drop stand exactly those steps, in order, all about the approved and configured name, which is neither the maintenance nor a template database; what is created in that run comes right after, with the settings read before the drop |
| Deployment.CreatedOnlyWhereMissing | internal/services/deployer.go:289-304 | in every other run a database is created only right after the lookup found none |
| Deployment.ConnectionIsClosed | internal/services/deployer.go:278-400 | the maintenance connection is opened at most once, works on the target alone, and is closed on every path |
| Deployment.PlainDeployIsHarmless | internal/services/deployer.go:373-400 | without overwrite nothing is dropped, terminated or approved, and a target that answers is not touched |
| Locks.ApplyKeepsSafe | internal/services/session.go:102-170 | every step of every deployment keeps: a live session holds its database's lock exactly between acquiring and releasing it |
| Locks.AlwaysSafe | internal/services/session.go:102-170 | so this holds after every schedule of any number of deployments |
| Locks.OnlyHolderExecutes | internal/services/session.go:132-147 | only the holder of a database's lock executes units on it |
| Locks.ReleasedBeforeReturn | pkg/pgmi/session.go:31-99 | a live deployment has released the lock before it gives back its connection, after any failure and any transaction status |
| Locks.RunsDoNotInterleave | internal/services/session.go:132-147 | between two units of one deployment no other deployment executes a unit on the same database |
| Locks.RefusedNeverExecutes | internal/services/session.go:132-147 | a deployment that was refused the lock, or has finished, never executes a unit |
| Locks.UnlockAloneKeepsLock | pkg/pgmi/session.go:31-36 | after any unit, a release without the conditional ROLLBACK leaves the lock held exactly if the unit left the session aborted |
| Locks.ReleaseFreesLock | pkg/pgmi/session.go:31-36 | ROLLBACK and unlock free the lock from every status |
| Locks.RunByKeepsSafe | internal/services/session.go:102-170 | what one deployment does on its own keeps the invariant |
| Sessions.Conn.Open | internal/services/session.go:87-100 | pool and connection as steps of the lock machine |
| Sessions.Conn.QueryVersion | internal/services/session.go:131-133 | the version request as a step of the lock machine, for every answer and for a connection that breaks |
| Sessions.Conn.QueryLock | internal/services/session.go:145-154 | the lock request as a step of the lock machine: acquired exactly on an answer that finds it free; a lost answer may leave it to the server |
| Sessions.Conn.ExecSetup | internal/services/session.go:156-164 | a setup request as a step of the lock machine, for every status it leaves and for a connection that breaks |
| Sessions.Conn.Exec | internal/services/deployer.go:245-264 | a unit as a step of the lock machine; session and reply are those of the abstract server |
| Sessions.Conn.ExecRollback | pkg/pgmi/session.go:33 | the conditional ROLLBACK as a step of the lock machine |
| Sessions.Conn.ExecUnlock | pkg/pgmi/session.go:35 | the unlock as a step of the lock machine; an aborted session would refuse it |
| Sessions.ReleaseDeployLock | pkg/pgmi/session.go:31-36 | a ROLLBACK exactly if the session is not idle, then the unlock; a live session is idle, without its pending work and without lock afterwards; as a run of the lock machine |
| Sessions.Session.constructor | pkg/pgmi/session.go:48-61 | a session with its pool, connection and connector and no files yet |
| Sessions.Session.Close | pkg/pgmi/session.go:72-99 | releases the lock before the connection is given back, closes pool and connector, clears all three fields; a second call does nothing; as a run of the lock machine that ends finished |
| Sessions.Abandon | internal/services/session.go:115-125 | the deferred cleanup: lock released only if acquired, then connection, pool and connector |
| Sessions.PrepareSessionTables | internal/services/session.go:286-320 | the four loading steps in order, up to the first that fails |
| Sessions.SetUp | internal/services/session.go:156-164 | verbosity first when asked for, then the tables |
| Sessions.Prepare | internal/services/session.go:131-164 | the requests of a preparation in order, up to the first that fails, and whether the lock was acquired; as a run of the lock machine |
| Sessions.PrepareSession | internal/services/session.go:79-170 | a session exactly if every step succeeds, for every pattern of answers and broken connections, on a server of version 11 or later; each error exactly for the step that failed, a concurrent deployment exactly if the lock is found held; otherwise everything opened is closed, a live connection keeps no lock, and the connection is given back last; the whole is a run of the lock machine that ends executing or finished |
| Sessions.SessionIsSafe | internal/services/session.go:79-170 | so preparing and closing keep the lock invariant |
| TestTree.FindParentTestDirectory | internal/files/loader/loader.go:221-231 | the search returns the longest directory of the set that is a proper slash-terminated prefix, or nothing if there is none |
| TestTree.CandidatesArePrefixes | internal/files/loader/loader.go:221-231 | the candidates are slash-terminated prefixes, longer for more components |
| TestTree.PrefixesAreCandidates | internal/files/loader/loader.go:221-231 | and every such prefix is a candidate |
| TestTree.AncestorsAreThoseAbove | internal/files/loader/loader.go:221-231 | following parents reaches exactly the proper ancestors in the set |
| TestTree.AboveIsShallower | internal/files/loader/loader.go:237-252 | a directory above another is strictly shallower, exactly unless the lower one is the marker and an empty component |
| TestTree.EqualDepthExample | internal/files/loader/loader.go:237-252 | two such directories of equal depth |
| TestTree.ExtractedIsTestDirectory | internal/files/loader/loader.go:198-210 | what is extracted from a file is a slash-terminated directory below a test marker |
| TestTree.TestDirectoryOfFile | internal/files/loader/loader.go:198-210 | a file has a test directory exactly if its path, with forward slashes, holds one of the two markers; it is the path through its last slash |
| TestTree.MarkerIsFirst | internal/files/loader/loader.go:235-242 | the marker found is the first that occurs |
| TestTree.DepthCounts | internal/files/loader/loader.go:237-252 | the depth of a test directory is the number of slashes behind its first marker, save for a lone one |
| TestTree.CollectDirectories | internal/files/loader/loader.go:137-157 | set and list hold the same directories, each once: those of the files |
| TestTree.InsertTestDirectories | internal/files/loader/loader.go:137-179 | the batch has one row per directory, with its nearest ancestor in the set and its depth, by depth |
| TestTree.ParentsComeFirst | internal/files/loader/loader.go:166-190 | without empty components at a marker every row comes after its parent's, however ties are ordered |
| Managed.StampField | internal/ai/setup.go:283-291 | the search returns the trimmed value of the first line with the key |
| Managed.ParseManaged | internal/ai/setup.go:236-259 | the record built step by step is the specified one; a stamp exactly if the marker occurs; a file without one reads as edited |
| Managed.WithoutStamp | internal/ai/setup.go:236-259 | a file without the marker reads as edited, without a stamp, with all its text as the body; otherwise the body is the text before the first marker; a body ends in exactly one newline |
| Managed.FieldIsOfFirstLine | internal/ai/setup.go:283-291 | the field is the trimmed rest of the first line that starts with the key, and empty if no line does |
| Managed.UnixDropsOne | internal/ai/setup.go:236-237 | of a text exactly the carriage returns before line feeds are dropped |
| Managed.KeyPlaces | internal/ai/setup.go:271-276 | in a stamp block the checksum key stands on its own line or inside the version or the source |
| Managed.RoundTripExactly | internal/ai/setup.go:236-276 | for a one-line stamp that does not quote the new digest, parsing a rendered file gives the normalized body, the stamp and no edit, exactly if that body holds no CRLF pair, no marker and no empty checksum line |
| Managed.EmptyKeyReadsEdited | internal/ai/setup.go:264-267 | a body with an empty checksum line and no marker is rendered to a file that reads as edited |
| Managed.EmptyKeyExample | internal/ai/setup.go:264-267 | the shortest such body |
| Managed.StampInBodyReadsUnedited | internal/ai/setup.go:236-267 | a body that is itself a file with an empty digest is rendered to a file that reads as that inner file, unedited |
| Managed.RenderedLineEnds | internal/ai/setup.go:236-267 | a rendered file parses the same after every LF has become CRLF |
| Managed.BareDetermines | internal/ai/setup.go:250-259 | only one file gives a bare form with a given recorded digest |
| Managed.EditsAreSeen | internal/ai/setup.go:236-259 | among files that carry the digest of a rendered file, and unless digests collide, exactly the rendered file, with any line ends, reads as unedited; also for stamps that mention the checksum key |
| AdoNet.ReadQuoted | internal/db/parser.go:213-234 | the inner loop reads a quoted value: doubled quotes become one, a single one or the end closes it |
| AdoNet.ReadValue | internal/db/parser.go:210-241 | a quoted value is read and what follows it up to the semicolon dropped; an unquoted one is trimmed; the reader stops at a semicolon or the end |
| AdoNet.ReadItem | internal/db/parser.go:198-247 | an item without equals sign or without key gives no pair, another one its pair; the reader moves on |
| AdoNet.SplitPairs | internal/db/parser.go:186-249 | the nested loops end, stay in bounds and give the specified pairs, on every text |
| AdoNet.QuotedOfDoubled | internal/db/parser.go:213-234 | reading undoes doubling the quotes of any value |
| AdoNet.SplitUndoesPrint | internal/db/parser.go:186-249 | printing pairs with quoted values, each with either quote, and splitting gives back the pairs |
| AdoNet.SplitOfPlain | internal/db/parser.go:236-241 | a value without quotes is read up to the next semicolon, less the spaces around it |
| AdoNet.SplitOfPrinted | internal/db/parser.go:213-235 | a quoted value is read as it was printed, whatever stands between its closing quote and the next semicolon |
| AdoNet.SplitSkipsWord | internal/db/parser.go:197-206 | text without an equals sign gives no pair |
| AdoNet.KeysAreGood | internal/db/parser.go:186-249 | every key found in any text is non-empty, trimmed and free of equals sign and semicolon |
| AdoNet.RoundTripExactly | internal/db/parser.go:186-249 | a list of pairs survives printing and splitting exactly if its keys are such; values are arbitrary |

## Left out

- Invalid UTF-8: the laws about scripts and checksums are about texts of code points. The splitter is modelled for any bytes, with its fallback (`internal/preprocessor/split.go:44-46`).
- ChecksumLaws.NormalizeIsIdempotent: its condition is sufficient and not necessary; a literal that the second pass reads differently may still be followed by text that comes out the same.
- Strip: is not idempotent (`-/**/-` becomes `--`), so `LexerLaws.OutputIsFixedPoint` speaks of the other outputs.
- Server.StatementsOf: the server refuses a message with a syntax error as a whole, before it runs any statement; here it fails at some statement. Literals and comments are read as the scanner reads them.
- Statements.KindOf: takes COMMIT PREPARED and ROLLBACK PREPARED, which concern other transactions, savepoints, and transaction control inside procedures as ordinary work.
- Sessions.Conn.Exec: a connection that breaks while a unit runs is not part of this model, so neither is a unit whose effects stay although its answer is lost; `Locks` lets connections break at any time.
- Execute.ExecuteDeploySQL: whether the file can be read is an input; the texts that the server generates for macro calls are a function.
- Locks.Apply: lets no script touch the advisory lock itself, and lets the server end a lost session only after its connection broke.
- Sessions.PrepareSession: is a run in which the other deployments rest; steps of others in between are covered by the interleavings in `Locks`.
- Deployment.DeploymentService.Deploy: a create that fails half-way through its options, and the texts of errors, are not part of this model.
- Macros.Detect: takes the regular expression engine's matches as given, in order, apart and each with a CALL keyword after at most one rune; how the expression finds them is not modelled. The function that generates the text for a call is a parameter.
- Macros.SortDescending, TestTree.Sort: the library sorts as insertion sorts; the laws do not depend on the order of ties.
- Managed.EditsAreSeen: SHA-256 is any function to hexadecimal text, with the premises that the two forms compared do not collide and that the stamp does not quote the digest of the file it is part of.
- AdoNet.SplitPairs: reads code points where the code reads bytes, which is the same for valid UTF-8 because every character it looks for is ASCII. It covers the pairs; the table of key synonyms and the checks of port and timeout that follow are branches without further structure.
- Comments.ScanSql: builds its output by concatenation where the source uses a string builder.
- Network, pools, timeouts, cancellation, notices, logging, retries: calls into code outside the repository, or wiring.
- Commands, wizards, approval prompts, connection precedence, parameter and metadata validation, exit codes: branches that would only add easy members.
- The SQL files behind `go:embed` are not part of this model.

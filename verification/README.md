# A verified model of the bot's deciding logic

The bot is a Rust program around Discord, a SQL database and an HTTP dashboard. This
project models the parts that decide something and proves what they keep: the TagScript
interpreter, the moderation case tables with their expiry sweeper, the role hierarchy,
giveaways, premium tokens, the rate limiters, the level curve, and the prefix cache.

Loops and objects of the source are methods and classes here; each is proved against a
specification function, and the lemmas are about those functions. Where several
commands, sweepers or requests can interleave, the state machine's `Next` is one atomic
step and the lemmas quantify over all step sequences (`Run`).

| file | models |
|---|---|
| `Lexer.dfy`, `Engine.dfy`, `Blocks.dfy`, `Interpreter.dfy` | tokenizer, tree semantics, budgets, dispatch, `run` |
| `Templates.dfy`, `Keywords.dfy`, `Verbatim.dfy` | whole templates and conditions; what each keyword means; unknown blocks |
| `Math.dfy`, `Codecs.dfy`, `Random.dfy`, `Context.dfy` | arithmetic parser, pipe lists and percent-encoding, weighted choice, variables |
| `Moderation.dfy`, `CaseStore.dfy`, `Effects.dfy`, `Escalation.dfy`, `Stranding.dfy`, `Early.dfy` | cases, timed rows and the sweeper; the handlers; what each command and pass does to every record; warn escalation; forgotten temp-bans; early lifts and sweeps |
| `Roles.dfy` | ranks, guarded role commands, who may act on whom |
| `Giveaways.dfy`, `Premium.dfy` | the draw and a giveaway's life; interleaved redemptions |
| `Limits.dfy`, `Cooldown.dfy`, `Spam.dfy` | fixed window, cooldown over a capped map, sliding window |
| `Levels.dfy`, `Prefixes.dfy`, `Table.dfy`, `Copies.dfy` | level curve and rewards; prefix cache and dispatch; what each writer stores and answers; repeated cache entries |

## Where the code departs from a promise

For each of these a lemma shows an input, and another says exactly when the promise holds.

- An unknown block is said to be left verbatim. `{a(b)c}` loses its `c` (`Lexer.TailIsLost`)
  and `{a:{{}}}` comes out as `{a:{}}` (`Verbatim.DoubledBracesAreLost`). A block is shown as
  written exactly if its two halves render as themselves and nothing but a colon follows its
  closed parameter, unless the parameter changed its length and the longer of the old and
  the new one goes on with `)` and the text that was behind
  (`Verbatim.UnknownBlockIsVerbatimIff`). Without braces inside: exactly if nothing but a
  colon follows (`Verbatim.StandardUnknownBlockIff`).
- `{var(+n)}` is documented to join the items up to the n-th. `{var(+2)}` of "a b" is "b"
  (`Context.PlusInput`), because the integer reader takes the plus sign first. The documented
  text comes out exactly for `+1`, past the last item, and for `+0` when the last item is
  empty (`Context.PlusJoinsHeadIff`).
- `split_pipe` undoes escaping and joining exactly when no part before the last ends in a
  backslash (`Codecs.SplitUndoesJoinIff`; `Codecs.SplitInput` loses a separator).
- `{random:...}` is meant to pick in proportion to the weights. Between different items it
  does exactly while these add up within 32 bits (`Random.FairIff`);
  `{random:4294967295|a~2|b}` never picks `b` (`Random.UnfairInput`).
- A temp-ban is meant to end. Case numbers are reused after a deletion, so a row the sweeper
  has scanned can cost a later temp-ban its own (`Moderation.DeletedQueuedCaseStrands`); a row
  without a case takes a number the next case may take too
  (`Moderation.FallbackNumberStrands`). In any state, over everything that can follow,
  someone temp-banned is never forgotten exactly if one of their rows is secure: its number
  is an existing case's, and the sweeper holds nothing else under it
  (`Stranding.NeverStrandedIff`; for a new temp-ban `Stranding.TempBanNeverStrandedIff` and,
  without a case, `Stranding.FallbackNeverStrandedIff`).
- A row is meant to be swept when it expires. In any state, over everything that can follow,
  it is never swept before exactly if, while it is not due, the sweeper holds no entry under
  its number (`Early.SweepNeverEarlyIff`); the race of `Moderation.DeletedQueuedCaseStrands`
  is the input.
- A ban is meant to last. Neither `ban` nor a renewed `tempban` clears an older row, which
  then lifts the new ban (`Early.PermanentBanIsLifted`). In any state, a ban holds until its
  time exactly if the sweeper holds no ban of that user and is bound to clear each ban row of
  theirs due before then (`Early.BanHoldsIff`); after an unban, exactly if the sweeper holds no
  ban of theirs from before (`Effects.BanAfterUnbanHoldsIff`).
- A command about one user is meant to leave others alone. It does exactly if its case does
  not take the number of a row of theirs (`CaseStore.CommandsAreLocalIff`); in
  `Moderation.FallbackNumberStrands` it does.
- A warn ends below the threshold or reports a failed escalation, except when the policy
  cannot be read or the reset is lost at the threshold (`Escalation.WarnEndsBelowOrReports`,
  `Escalation.UnreadPolicyIsSilent`).
- A patron level is meant never to drop. Overlapping redemptions of one user can lower it
  (`Premium.OverlapDrops`): exactly when another one stores more between the read and the
  write, or the read failed to see more (`Premium.StaleWriteDropsIff`). One redemption by
  itself does exactly when only the read of the level fails and the token is worth less
  (`Premium.AloneDropsIff`).
- Being entered in a giveaway is meant to mean an odd number of presses. Two presses at once
  can both delete (`Giveaways.OverlapMisses`); the parity holds exactly if an even number of
  deletes found nothing (`Giveaways.Lifecycle`), so always for presses one after the other
  (`Giveaways.EnteredIffOdd`). An ended giveaway's pool is fixed exactly when no press is
  under way (`Giveaways.PoolIsFrozenIff`).
- A fixed window of `max` hits admits up to `2 * max - 1` in some interval of its own length
  (`Limits.ApiCeiling`), and that many do get through, for one key
  (`Limits.CeilingIsReached`), for one actor (`Limits.ActorCeiling`,
  `Limits.ActorCeilingIsReached`) and for the API as a whole (`Limits.TokenCeilingIsReached`).
- A guild may have 15 prefixes. Every reconnect lists the stored ones once more, so that
  `prefix add` can refuse a guild's second (`Copies.ReconnectsFill`). After any run it does
  so exactly when the copies come to 15 (`Copies.AddIsFullIff`), and the copies of every
  prefix are known (`Copies.ReconnectsPile`, `Copies.KeptPilesUp`).

## Modelling notes

- The engine is switched off in the source (`ENGINE_ENABLED`). `Interpreter.Run` has the
  switch as a parameter; the other results are about the engine behind it.
- `MAX_OUTPUT` is documented in characters; the code adds byte lengths, and so does the model.
- A unary sign is documented as optional and single; the code accepts any number of signs,
  and so do the expression trees of the model.
- Integers that can leave their width in practice wrap as in a release build: the weights of
  `Random.dfy` in 32 bits, a member's experience in `Levels.dfy` in 64 bits.

## Model

| member | source | states |
|---|---|---|
| Lexer.Tokenize | src/tagscript/lexer.rs:17-78 | the cursor loop computes `Tokenized`, the specification the round trips are about |
| Lexer.ReadBlock | src/tagscript/lexer.rs:31-59 | the inner loop stops at the brace matching the opening one, or takes the whole rest |
| Lexer.ParseBlockLoop | src/tagscript/lexer.rs:85-154 | the scan with `depth`, `skip` and `param_start` splits a block as `ParseBlock` says: first unescaped `:` or balanced `(...)` decides |
| Lexer.ScannedIsBalanced | src/tagscript/lexer.rs:31-59 | what is taken as block content opens as many braces as it closes and never closes more |
| Lexer.PrintThenTokenize | src/tagscript/lexer.rs:17-142 | for every canonical token list, tokenizing its printed form gives back exactly that list |
| Lexer.EscapedTextIsOneLiteral | src/tagscript/lexer.rs:26-30 | any non-empty text with its braces doubled is read as one literal, that text |
| Lexer.SyntaxIsPrintable | src/tagscript/lexer.rs:85-142 | plain name, parenthesis-balanced parameter, braces balanced over the block: such a block is read back as itself |
| Lexer.ReconstructIsVerbatimIff | src/tagscript/blocks.rs:893-907 | the parsed pieces of a block, put together as they are, give its text if and only if nothing but a colon follows its parameter |
| Lexer.TailIsLost | src/tagscript/blocks.rs:203-205 | a concrete block that the source's comment calls verbatim and that loses text |
| Lexer.TokensShape | src/tagscript/lexer.rs:17-78 | every token list has no empty or adjacent literals, and parameters and payloads strictly shorter than the template; if no block drops text it is canonical |
| Lexer.TokenizePrintTokenize | src/tagscript/lexer.rs:17-142 | printing what was read and reading it again changes nothing, when no block drops text |
| Engine.ResolveIsEval | src/tagscript/mod.rs:78-133 | lazy re-tokenizing gives the same text, variables, break body, effects, budgets spent and dispatch order as parsing once into a tree and evaluating that |
| Engine.StepIsEvalNode | src/tagscript/mod.rs:101-125 | the same for one block: parameter before payload before dispatch |
| Engine.NodesBounded | src/tagscript/mod.rs:108-111 | the 32-bit block counter stays within two per nesting level of its limit, far from overflow |
| Engine.StopTrail | src/tagscript/mod.rs:93-121 | after the first stop exactly the blocks enclosing it are still dispatched, innermost first |
| Engine.RunIsBounded | src/tagscript/mod.rs:56-70 | any template, any block table: at most 5000 dispatches, none nested deeper than 50, and the stop trail, for a whole run |
| Engine.BudgetsInvisible | src/tagscript/mod.rs:28-36 | while block count and level widths stay within their limits the result is the meaning without any budget |
| Engine.OutputIsCut | src/tagscript/mod.rs:122-129 | a level past 10000 bytes stops at the token that took it there |
| Engine.EscapedTextRendersItself | src/tagscript/mod.rs:78-133 | escaped text renders as itself and does nothing else |
| Verbatim.UnknownBlockIsVerbatimIff | src/tagscript/mod.rs:112-125 | rendered through the engine, a block put back from its resolved halves shows as written if and only if both halves render as themselves and no text follows the parameter; a parameter of another length hides it exactly if the longer one goes on with `)` and the text that was behind |
| Verbatim.PlainUnknownBlockIff | src/tagscript/blocks.rs:203-205 | without braces inside: if and only if no text but a colon follows the closed parameter |
| Verbatim.UnknownIsPutBack | src/tagscript/blocks.rs:182-206 | names that are no keyword, variable or attribute are put back |
| Verbatim.StandardUnknownBlockIff | src/tagscript/blocks.rs:203-205 | the same for the repository's blocks |
| Verbatim.DoubledBracesAreLost | src/tagscript/blocks.rs:203-205 | `{a:{{}}}` renders as `{a:{}}` |
| Interpreter.ProcessBlock | src/tagscript/blocks.rs:7-207 | one dispatch updates the two mutable objects as the block table decides |
| Interpreter.ResolveText | src/tagscript/mod.rs:78-133 | the loop over tokens, with its shared objects, computes `Engine.Resolve` |
| Interpreter.ResolveToken | src/tagscript/mod.rs:96-125 | one turn of that loop, the budget checked before anything is resolved |
| Interpreter.Run | src/tagscript/mod.rs:46-70 | disabled: the template untouched, no effects; enabled: stop message, else break body, else text |
| Blocks.BranchIsChosen | src/tagscript/blocks.rs:258-276 | an escaped two-branch payload yields exactly one of its branches, pipes inside included |
| Blocks.ArithmeticBlock | src/tagscript/blocks.rs:93-96 | a calculation block shows the value of the tree its payload prints, or the error under the name used |
| Templates.EqualityIsDecided | src/tagscript/blocks.rs:214-241 | `a==b` and `a!=b` compare the trimmed texts and are each other's negation, for texts free of comparison signs |
| Templates.ConditionalChooses | src/tagscript/blocks.rs:43-46 | an `if` on `a==b` yields its first branch when the texts agree, else its second |
| Templates.ListIsJudgedByItems | src/tagscript/blocks.rs:244-255 | `all` and `any` judge exactly the escaped conditions they are given |
| Templates.AssignedIsRead | src/tagscript/blocks.rs:26-35 | what was assigned under a name is what a block of that name gives |
| Templates.AssignThenRead | src/tagscript/mod.rs:78-133 | the template `{=(x):v}{x}` renders `v`, through tokenizer, nested rendering, both dispatches and lookup |
| Templates.LoneBraceIsText | src/tagscript/lexer.rs:26-72 | a brace never closed, or closing nothing, is text together with what is around it |
| Templates.LoneBraceRendersItself | src/tagscript/mod.rs:78-133 | and renders as it stands |
| Keywords.OrderIsCompared | src/tagscript/blocks.rs:219-238 | the first sign that occurs decides: `>=`, `<=`, `>` and `<` compare the trimmed sides, in that order, as numbers |
| Keywords.WordsAreJudged | src/tagscript/blocks.rs:213-241 | without a sign a condition is the word true, the word false, or none |
| Keywords.AllChooses | src/tagscript/blocks.rs:48-51 | `all` and `and` show the first branch exactly when every condition holds, else the second |
| Keywords.AnyChooses | src/tagscript/blocks.rs:53-56 | `any` and `or` exactly when some condition does |
| Keywords.NotTwoBranches | src/tagscript/blocks.rs:258-276 | a payload that is not two branches is shown whole when the condition holds, and not at all when it does not |
| Keywords.NotDenies | src/tagscript/blocks.rs:58-61 | `not` says false exactly when the compared texts agree |
| Keywords.ChooseGivesItem | src/tagscript/blocks.rs:81-85 | `choose` shows the item its roll names, trimmed |
| Keywords.GuardsDecide | src/tagscript/blocks.rs:63-80 | `stop`, `break` and `delete` act exactly when the compared texts agree, with their payload |
| Keywords.UnguardedDecide | src/tagscript/blocks.rs:63-162 | without a condition `delete` acts, `stop` and `break` do not |
| Keywords.AssignsIff | src/tagscript/blocks.rs:17-35 | the four spellings of assignment store their payload under their name, and nothing when there is no name |
| Keywords.SilentBlocksDoNothing | src/tagscript/blocks.rs:177-183 | comments, and blocks that would run code or commands, give nothing and change nothing |
| Keywords.PositionalIsItem | src/tagscript/blocks.rs:194-198 | `{2}` is the second word of the arguments, `{0}` the last, a number past the end all of them |
| Keywords.RandomGivesPick | src/tagscript/blocks.rs:87-88 | `random`, `rand` and `#` show the entry of the picks that the roll falls on, or the first item for a seeded sum of nothing |
| Keywords.HashComments | src/tagscript/blocks.rs:186-193 | any other name after `#` is a comment |
| Keywords.ActsAndTexts | src/tagscript/blocks.rs:89-176 | a block that acts leaves exactly one more effect with its resolved halves and no text; a block that computes leaves its text and no change |
| Keywords.GuardedTemplate | src/tagscript/mod.rs:46-70 | of `{stop(a==b):m}t` and `{break(a==b):m}t` the user sees `m` alone when the texts agree and `t` when they do not, through the whole run; only `stop` halts it |
| Random.RandomBlock | src/tagscript/blocks.rs:336-364 | the two loops compute the 32-bit sum, the roll below it and the 32-bit walk; a sum of 0 gives roll 0 with a seed and stops the source without one |
| Random.FairIff | src/tagscript/blocks.rs:349-363 | between different items, some roll picks and each item is picked in proportion to its weight, if and only if the weights add up within 32 bits |
| Random.NeverPicked | src/tagscript/blocks.rs:349-363 | past 32 bits some item is picked by no roll |
| Random.UnfairInput | src/tagscript/blocks.rs:336-363 | a payload with the weights 4294967295 and 2 has one roll, for its first item |
| Random.PicksAreExpanded | src/tagscript/blocks.rs:356-362 | within 32 bits the walk reads the list in which each item stands as often as it weighs |
| Random.PickedIs | src/tagscript/blocks.rs:349-363 | every random number picks the entry at its remainder, so all entries alike; for a sum of nothing a seed gives the first item |
| Random.ItemIsRead | src/tagscript/blocks.rs:336-348 | an item alone weighs 1, behind digits what they say; 0, more than 32 bits and no number weigh 1 |
| Random.ItemsAreRead | src/tagscript/blocks.rs:336-348 | items joined by tildes, or by commas when there is no tilde, are read one by one |
| Math.MathParser.Expr | src/tagscript/blocks.rs:446-458 | the loop is the left-associative grammar function, cursor included |
| Math.MathParser.Term | src/tagscript/blocks.rs:461-487 | likewise for products, failing on a zero divisor |
| Math.MathParser.Factor | src/tagscript/blocks.rs:490-498 | likewise for powers, right-associative |
| Math.MathParser.Unary | src/tagscript/blocks.rs:501-513 | likewise for signs, which bind tighter than powers |
| Math.MathParser.Primary | src/tagscript/blocks.rs:516-539 | likewise for numbers and parentheses |
| Math.Evaluate | src/tagscript/blocks.rs:423-433 | white space dropped, everything consumed, finite result, or nothing |
| Math.EvaluatesTheTree | src/tagscript/blocks.rs:423-540 | every tree printed with the fewest parentheses evaluates to its value |
| Math.EvalMathIff | src/tagscript/blocks.rs:423-540 | a text evaluates to `v` if and only if it is the printed form of a tree of value `v` |
| Math.NoValueMeansZeroDivisor | src/tagscript/blocks.rs:470-481 | a tree with readable numbers has no value exactly when some divisor in it is zero |
| Codecs.SplitPipeLoop | src/tagscript/blocks.rs:283-304 | the peeking loop computes `SplitPipe` |
| Codecs.SplitUndoesJoinIff | src/tagscript/blocks.rs:283-304 | splitting undoes escaping and joining if and only if no part but the last ends in a backslash |
| Codecs.SplitInput | src/tagscript/blocks.rs:283-304 | two parts, the first ending in a backslash, come back as one |
| Codecs.JoinedIsFused | src/tagscript/blocks.rs:283-304 | what it gives in every other case: parts fused across swallowed separators |
| Codecs.UrlEncodeLoop | src/tagscript/blocks.rs:618-632 | the loop over bytes computes `UrlEncode` |
| Codecs.UrlDecodeLoop | src/tagscript/blocks.rs:634-661 | the loop over bytes computes `UrlDecode` |
| Codecs.DecodeUndoesEncode | src/tagscript/blocks.rs:618-661 | decoding undoes encoding for all bytes and both flags |
| Codecs.EncodedAlphabet | src/tagscript/blocks.rs:618-632 | encoded text holds unreserved characters (section 2.3 of RFC 3986), percent signs, and the one sign the flag allows |
| Codecs.PercentsAreEscapes | src/tagscript/blocks.rs:627-629 | every percent sign is followed by two upper-case hexadecimal digits (section 2.1 of RFC 3986) |
| Codecs.EncodesByteByByte | src/tagscript/blocks.rs:618-632 | bytes are encoded one by one: exactly the unreserved ones, and slashes under one flag, stay; spaces are pluses under the other; all others take three |
| Codecs.MalformedEscapesStay | src/tagscript/blocks.rs:634-661 | text with no escape that can be read decodes to itself |
| Codecs.LowerCaseIsRead | src/tagscript/blocks.rs:640-648 | escapes in lower case are read for every byte |
| Codecs.PlusDigitIsRead | src/tagscript/blocks.rs:640-648 | an escape of a plus sign and one digit is that digit's value |
| Context.JoinUndoesSplit | src/tagscript/context.rs:138-155 | splitting a variable on any separator loses nothing |
| Context.PlusIsShadowed | src/tagscript/context.rs:160-186 | `+n` gives what `n` gives, for every run of digits |
| Context.PlusIndex | src/tagscript/context.rs:160-186 | what that is: the last item for 0, the n-th, or the whole string past the end |
| Context.PlusJoinsHeadIff | src/tagscript/context.rs:131-137 | it is the documented join up to n exactly for 1, past the end, or for 0 with an empty last item |
| Context.PlusInput | src/tagscript/context.rs:160-168 | `{var(+2)}` of "a b" is "b" |
| Context.TailIndex | src/tagscript/context.rs:169-186 | `n+` joins the items from the n-th on, and gives the whole string for 0, 1 and past the end |
| Context.TailJoinCompletes | src/tagscript/context.rs:169-184 | the first n-1 items and `{var(n+)}` together are the whole string |
| Context.NegativeIndex | src/tagscript/context.rs:151-168 | `-n` is the n-th item from the end, the whole string past the first, and `-0` the first item |
| Context.DotIsParenthesis | src/tagscript/context.rs:71-87 | `{user.id}` is `{user(id)}`, for every base and attribute |
| Context.PersonReads | src/tagscript/context.rs:90-110 | what each attribute of the user and of the target stands for, white space apart |
| Context.PlaceReads | src/tagscript/context.rs:112-129 | what each attribute of the channel and of the server stands for |
| Context.ScalarReads | src/tagscript/context.rs:47-87 | uses, clock and arguments; every other undotted name is unknown |
| Roles.TopOfIsTop | src/utils/roles.rs:10-26 | the top role is held or `@everyone`, and nothing held ranks above it |
| Roles.TopIsUnique | src/utils/roles.rs:10-26 | no other role has that property: ties on position are broken by id |
| Roles.ChangeKeepsTopIff | src/cogs/roles.rs:225-258 | exactly when adding or removing one role leaves the top role in place |
| Roles.AppliedKeepsTop | src/cogs/roles.rs:468-479 | a guarded batch of changes keeps the top role whichever API calls fail |
| Roles.RunKeepsTops | src/cogs/roles.rs:187-479 | over any run of the three role commands nobody's top role moves |
| Roles.RolesCog.Partition | src/cogs/roles.rs:381-403 | the token loop sorts requests into additions and removals; an unknown name fails it |
| Roles.RolesCog.ApplyChanges | src/cogs/roles.rs:468-479 | additions in order, then removals, a failed call changing nothing |
| Roles.RolesCog.Execute | src/cogs/roles.rs:187-479 | the commands on the membership table are the steps of the run |
| Roles.ActingIsStrictOrder | src/cogs/moderation.rs:1187-1230 | the right to act is irreflexive, asymmetric and transitive among members |
| Roles.ActingIsStable | src/cogs/moderation.rs:1207-1229 | no run of role commands changes who may act on whom |
| Roles.CanActIff | src/cogs/moderation.rs:1187-1230 | the owner may act on anyone else and nobody on the owner; a non-member can be acted on and a non-member may act; between members exactly if some role of the one, by position and then by smaller id, stands above every role of the other |
| Roles.PartitionedIs | src/cogs/roles.rs:381-403 | the arguments fail exactly on a signed name that no role answers to; else exactly what is asked for is added and removed, a toggle by what is held |
| Roles.PermittedIff | src/cogs/roles.rs:211-466 | a command goes ahead exactly if its names resolve, the member does not outrank the author, what is added stands below a role of the bot and not above the member's top role, and that top role stays |
| Roles.AppliedIs | src/cogs/roles.rs:468-479 | whichever calls fail: a role is held afterwards exactly if it was held or its addition went through, and no removal of it did |
| Roles.CommandDoes | src/cogs/roles.rs:187-479 | a refused command changes nothing; a permitted one whose calls go through leaves what was held or asked for, less what was to go, and everybody else's roles |
| CaseStore.Store.CreateCase | src/cogs/moderation.rs:1245-1304 | the case gets the highest number plus one, or nothing changes |
| CaseStore.Store.RecordTimed | src/cogs/moderation.rs:1405-1435 | the row is upserted under the case's number, or under one of its own |
| CaseStore.Store.Highest | src/cogs/moderation.rs:1597-1608 | the highest number in a table, 0 for an empty one |
| CaseStore.Store.TempBanCommand | src/cogs/moderation.rs:562-598 | past dates and API refusals change nothing; else ban, case and row |
| CaseStore.Store.UnbanCommand | src/cogs/moderation.rs:266-278 | the ban, and every pending ban row of the user, go, as `Effects.UntimedClears` says of the step |
| CaseStore.Store.DeleteCaseCommand | src/http/v1/cases.rs:161-179 | the case and its row go together; an unknown number is reported |
| CaseStore.Store.LiftMute | src/http/v1/cases.rs:181-206 | mutes and temp-bans become due now, timeouts are refused |
| CaseStore.Store.WarnCommand | src/cogs/moderation.rs:115-134 | one more active warn if its case is written, and escalation exactly when the policy is read and the threshold reached |
| CaseStore.Store.EscalateMember | src/cogs/moderation.rs:1506-1533 | the landed punishment is logged and the member's warns are reset, if the reset goes through |
| CaseStore.CommandsAreLocalIff | src/cogs/moderation.rs:96-599 | in any state, a command about one user leaves another's ban, rows and cases as they were if and only if its case does not take the number of a row of theirs |
| CaseStore.DeletionIsLocal | src/cogs/moderation.rs:838-863 | so does deleting a case, for everyone it is not about |
| CaseStore.Store.LogPunishment | src/cogs/moderation.rs:1491-1523 | kick and ban cases, or a clamped timeout with its row |
| CaseStore.Store.SweepPass | src/cogs/moderation.rs:1687-1766 | the loop over the scanned rows is the row-by-row treatment of the state machine |
| CaseStore.Store.SweepOneRow | src/cogs/moderation.rs:1697-1757 | lift, retry on transient failures only, else clear row and case by number |
| Moderation.StepKeepsInv | src/cogs/moderation.rs:1245-1767 | every step but the deletion of a case whose row the sweeper holds, cases being written, keeps: rows match active cases of the same target and kind, nobody temp-banned is forgotten, scanned rows still mean their case and are due |
| Moderation.DeletionKeepsInvIff | src/cogs/moderation.rs:838-853 | a deletion keeps all of that if and only if the sweeper holds no row of that case |
| Moderation.StepKeepsRows | src/http/v1/cases.rs:161-206 | with any deletion, even in mid-pass, and from any state in which they do: every timed row matches an existing active case of the same target and kind |
| Moderation.RunKeepsRows | src/cogs/moderation.rs:1245-1435 | the same over every run in which cases are written |
| Moderation.RunKeepsInv | src/cogs/moderation.rs:1245-1767 | the clauses of `Moderation.StepKeepsInv` over every run of such steps, commands interleaved with a sweep |
| Moderation.NoStrandedTempBan | src/cogs/moderation.rs:544-599 | without case deletion, whoever a temp-ban still holds has a pending row or had a lift refused for good |
| Early.SweepNeverEarlyIff | src/cogs/moderation.rs:1669-1746 | in any state, over every sequence of steps: the sweeper never clears a row before its expiry if and only if, while the row is not due, it holds no entry under that number |
| Moderation.CleanPassClears | src/cogs/moderation.rs:1733-1746 | from any state, commands and deletions of other cases in between: a pass without transient failure leaves no row that it scanned |
| Moderation.DrainKeepsRowIff | src/cogs/moderation.rs:1741-1757 | exactly which rows the rest of a pass leaves |
| Early.TempBanSurvivesPassIff | src/cogs/moderation.rs:1741-1746 | in any state, over every sequence of steps: a new temp-ban keeps its row until it expires if and only if its number is not one the sweeper still holds |
| Moderation.FreshNumberIsNotQueued | src/cogs/moderation.rs:1269-1281 | under the invariant a new case number is never one the sweeper still holds |
| Moderation.DeletedQueuedCaseStrands | src/cogs/moderation.rs:838-853 | the race that breaks it, from the empty log |
| Moderation.FallbackNumberStrands | src/cogs/moderation.rs:1597-1608 | two temp-bans, the first without a case: its row is overwritten |
| Stranding.NeverStrandedIff | src/cogs/moderation.rs:1405-1757 | in any state with numbers from 1 on, over every sequence of steps until they are temp-banned again: someone held by a temp-ban is never forgotten if and only if some row of theirs has an existing case's number and the sweeper holds nothing else under it |
| Stranding.TempBanNeverStrandedIff | src/cogs/moderation.rs:1741-1746 | so for a new temp-ban: if and only if the sweeper holds nothing else under its number, or another row of that user is secure |
| Stranding.FallbackNeverStrandedIff | src/cogs/moderation.rs:1597-1608 | and for one whose case could not be written: if and only if, besides, its number is that of an existing case, or another row of that user is secure |
| Stranding.EarlierRowSecures | src/cogs/moderation.rs:1405-1435 | under the invariant any earlier ban row pending is secure |
| Early.BanHoldsIff | src/cogs/moderation.rs:1697-1746 | in any state, over every sequence of steps without interference: a ban holds until its time if and only if the sweeper holds no ban of that user, and each ban row of theirs due before then has a timeout entry under its number, which clears it |
| Early.PermanentBanIsLifted | src/cogs/moderation.rs:200-243 | a permanent ban over a temp-ban does not hold |
| Effects.UntimedClears | src/cogs/moderation.rs:252-285 | `unban`, and `unmute` and `untimeout` likewise, in any state: no row of that user and kind is left, every other row and ban is as it was, the ban is gone, and a case is logged above all others |
| Effects.BanAfterUnbanHoldsIff | src/cogs/moderation.rs:266-278 | over every run after an unban without a new temp-ban of that user: a ban then holds for good if and only if the sweeper holds no ban of theirs, which it does not if it held none at the unban |
| Effects.LiftedIsScannedIff | src/http/v1/cases.rs:181-206 | a row lifted from the dashboard is in the next scan if and only if it is no timeout or was due; it stays the same record, and every other stays as it was |
| Effects.DeletedIsGone | src/cogs/moderation.rs:838-863 | the case and the row of its number go, everything else stays |
| Effects.TempBanIsScannedIff | src/cogs/moderation.rs:544-599 | a temp-ban's row, under its case's number or one above all rows, is in a scan exactly from the given time on; the user is banned for a time, and nothing else changes |
| Effects.TimedIsScannedIff | src/cogs/moderation.rs:292-485 | the same for mutes and timeouts, which ban nobody and refuse a time that has passed |
| Effects.BanIsPermanent | src/cogs/moderation.rs:200-243 | a ban is for good, logs its case and adds no row |
| Effects.SweptRow | src/cogs/moderation.rs:1697-1757 | a row whose lift is final goes and its case becomes inactive, a ban is lifted exactly when the call went through, and a transient failure leaves everything; no other row, case or ban changes |
| Effects.PassLifts | src/cogs/moderation.rs:1663-1767 | a whole pass, every call going through: exactly the due rows go, exactly their cases become inactive, and exactly those with a due ban row are unbanned |
| Escalation.WarnCounts | src/cogs/moderation.rs:117-139 | one warn adds one to the active count, or resets it with one escalation, whichever of the reads and writes fail |
| Escalation.RunAccounts | src/cogs/moderation.rs:1479-1537 | over any run, threshold times escalations plus active warns equals warns given |
| Escalation.WarnAccounting | src/cogs/moderation.rs:1479-1537 | k warns make exactly k div T escalations and leave k mod T active |
| Escalation.WarnEndsBelowOrReports | src/cogs/moderation.rs:117-134 | a warn ends below the threshold or reports the failure if and only if it does not reach the threshold, or the policy is read and a landed punishment's reset goes through |
| Escalation.UnreadPolicyIsSilent | src/cogs/moderation.rs:122-126 | a first warn at threshold one with an unreadable policy ends at the threshold and says nothing |
| Effects.WarnPunishesIff | src/cogs/moderation.rs:96-139 | a warn punishes if and only if the policy is read, has a threshold that the active warns with this one reach, and the punishment lands; else only its case comes of it |
| Effects.PunishPunishes | src/cogs/moderation.rs:1479-1537 | a kick touches no ban or row, a ban is for good, and a timeout has a row of its own that lasts as configured within a minute and 28 days |
| Giveaways.DrawLoop | src/cogs/giveaways.rs:131-136 | the swap-remove loop computes `Draw` |
| Giveaways.DrawConserves | src/cogs/giveaways.rs:131-136 | winners and remaining pool rearrange the entries |
| Giveaways.DrawIsSelection | src/cogs/giveaways.rs:131-136 | any choices draw distinct entrants, and the choices can be read off the winners |
| Giveaways.SelectionIsDrawn | src/cogs/giveaways.rs:131-136 | every ordered selection is drawn by some choices |
| Giveaways.DrawIsBijective | src/cogs/giveaways.rs:129-136 | choices and ordered selections correspond one to one: the draw is fair |
| Giveaways.DrawsIff | src/cogs/giveaways.rs:129-136 | a draw can come out as any ordered selection of as many entrants as are wanted, or of all when they are fewer, and as nothing else |
| Giveaways.AnnouncedInFull | src/cogs/giveaways.rs:122-178 | along every run each announcement names as many winners as are wanted or the whole pool, one for a reroll, else the giveaway's own number |
| Giveaways.FinishAnnouncesIff | src/cogs/giveaways.rs:122-178 | some choices make finishing announce a given list if and only if it is such a selection of the entrants |
| Giveaways.RerollAnnouncesIff | src/cogs/giveaways.rs:400-423 | some choices make a reroll announce a given list if and only if the giveaway has ended and the list is one entrant, or empty when there are none; a reroll changes nothing else |
| Giveaways.UnreadEntriesWinNothing | src/cogs/giveaways.rs:123-128 | entries that cannot be read: nobody wins, and the giveaway has ended |
| Giveaways.FinishedForGoodIff | src/cogs/giveaways.rs:158-170 | a due giveaway is in a later scan if and only if `ended` could not be stored, and announced if and only if it could |
| Giveaways.EndedByHandIsScannedIff | src/cogs/giveaways.rs:360-389 | a giveaway ended by hand is in the next scan unless it had ended before |
| Giveaways.StartedIsScannedIff | src/cogs/giveaways.rs:264-352 | a started giveaway takes entries and is in a scan exactly from its end on |
| Giveaways.PressTogglesIff | src/cogs/giveaways.rs:71-112 | one press lets its user in or out exactly if the giveaway is open and the calls it needs go through, and nobody else |
| Giveaways.Lifecycle | src/cogs/giveaways.rs:71-178 | along every run, writes failing and restarts included: one original announcement at most, only after `ended` is stored, rerolls only on ended ones; entrants are the odd pressers exactly if an even number of deletes missed |
| Giveaways.EnteredIffOdd | src/cogs/giveaways.rs:71-112 | presses one after the other: entered if and only if an odd number went through |
| Giveaways.OverlapMisses | src/cogs/giveaways.rs:86-107 | two presses at once, three in all, and out |
| Giveaways.EndedForGood | src/cogs/giveaways.rs:158-163 | `ended` never reverts |
| Giveaways.PoolIsFrozenIff | src/cogs/giveaways.rs:71-107 | once ended, a user stays in or out for good if and only if no press of theirs has yet to insert or delete their entry |
| Giveaways.StepsAreLocal | src/cogs/giveaways.rs:59-178 | a step on one giveaway leaves every other one's row, entries and result as they were |
| Giveaways.GiveawaysCog.OnPress | src/cogs/giveaways.rs:71-112 | insert, or delete when the insert finds the row |
| Giveaways.GiveawaysCog.FinishNext | src/cogs/giveaways.rs:122-178 | draw, store `ended`, only then announce |
| Giveaways.GiveawaysCog.GwReroll | src/cogs/giveaways.rs:400-423 | one more winner, for ended giveaways only |
| Premium.RedemptionIsSafe | src/cogs/premium.rs:116-173 | any interleaving, any failure: a token is burned once at most, by its recorded owner, and stored levels are initial or burned ones |
| Premium.LevelNeverDrops | src/cogs/premium.rs:152-173 | one user's redemptions one after the other never lower the level |
| Premium.OverlapDrops | src/cogs/premium.rs:116-173 | two overlapping ones can, from two fresh tokens, call by call |
| Premium.StaleWriteDropsIff | src/cogs/premium.rs:152-173 | between a read of the level, failed or not, and the write: the level falls below where it stood exactly if it stood above what the write stores already or another redemption of that user stored more; the write lowers it exactly if the last of those did, or none and it stood above |
| Premium.AloneDropsIff | src/cogs/premium.rs:106-187 | one redemption by itself does so exactly when only the level read fails and the token is worth less |
| Premium.AloneStores | src/cogs/premium.rs:106-187 | one redemption by itself burns the token exactly if it is there, fresh, and both calls go through, and then stores the larger of the two levels if the write does |
| Premium.PremiumCog.Activate | src/cogs/premium.rs:106-187 | the command body is the four steps in a row |
| Limits.RateLimiter.Allow | src/http/auth.rs:89-102 | the new map, what may be given up for it, and the verdict |
| Limits.HitAllBounded | src/http/auth.rs:96-101 | the window invariant behind the ceiling |
| Limits.FollowsOneKey | src/http/auth.rs:89-102 | a key that is never evicted behaves as if it were alone |
| Limits.ApiCeiling | src/http/auth.rs:105-111 | at most 2 max - 1 admitted hits of a key in any half-open interval of the window's length |
| Limits.CeilingIsReached | src/http/auth.rs:96-101 | that bound is reached for every limit and window |
| Limits.AdmittedByGlobal | src/http/auth.rs:152-157 | what both limiters admit is at most what the global one does |
| Limits.TokenCeiling | src/http/auth.rs:113-121 | whatever actor ids are sent, at most 1999 requests pass in any window |
| Limits.TokenCeilingIsReached | src/http/auth.rs:105-121 | and 1999 do, each by another actor |
| Limits.AdmitIff | src/http/auth.rs:152-157 | a request passes if and only if the token has had fewer than 1000 hits and its actor fewer than 100 in their current windows; it counts against the token always, and against its actor unless the token's limit refused it |
| Limits.ActorCeiling | src/http/auth.rs:105-111 | an actor never evicted passes at most 199 times in any half-open interval of the window's length |
| Limits.ActorCeilingIsReached | src/http/auth.rs:105-121 | and 199 times it does pass, the token's budget included |
| Cooldown.Limiter.BoundedInsert | src/utils/cache.rs:11-25 | just enough entries go, even for a known key; the pair is stored; survivors are untouched; the cap holds |
| Cooldown.Limiter.Check | src/utils/ratelimit.rs:28-37 | the time left, or the clock restarted |
| Cooldown.GainsAreSpaced | src/cogs/levels.rs:83-91 | with fewer members than the cap, a member's awards are a window apart |
| Cooldown.AwardedIff | src/cogs/levels.rs:83-91 | with fewer members than the cap, a message earns if and only if its author has earned nothing yet or their last award is a cooldown old |
| Cooldown.XpBound | src/cogs/levels.rs:83-103 | in any span a member gains at most (span div cooldown + 1) times the larger bound |
| Spam.SpamWindow.IsSpamming | src/cogs/automod.rs:285-298 | the new deque and the verdict; nothing happens on non-positive settings; the cap holds |
| Spam.SpamWindow.EvictIfFull | src/cogs/automod.rs:42-47 | one other entry goes exactly when a new key meets a full map |
| Spam.DropFront | src/cogs/automod.rs:293-296 | the loop at the front of the deque |
| Spam.DequeIsRecentHistory | src/cogs/automod.rs:285-298 | the deque is the recorded history cut down to the last seconds |
| Spam.VerdictIsCount | src/cogs/automod.rs:285-298 | the verdict is the brute-force count over the whole history |
| Levels.ClosedForm | src/cogs/levels.rs:165-167 | L levels cost 5L(L+7)(2L+13)/6, at least 5L^3/3 |
| Levels.LevelIsUnique | src/cogs/levels.rs:170-182 | at most one level fits a total |
| Levels.LevelFromXp | src/cogs/levels.rs:170-182 | for every 64-bit total: ends without overflow at the level that fits, with the right remainder |
| Levels.SmallEnough | src/cogs/levels.rs:165-167 | a level reachable with 64-bit totals stays below two million |
| Levels.LevelMonotone | src/cogs/levels.rs:170-182 | more experience is no lower level |
| Levels.LevelsCog.OnAward | src/cogs/levels.rs:103-159 | the total in 64 bits, and each reward above the old level and up to the new one as often as it is configured, no other |
| Levels.EachRewardOnce | src/cogs/levels.rs:147-158 | over any run of awards the rewards given are, with multiplicity, those above the first level up to the last |
| Levels.RewardsHandedOut | src/cogs/levels.rs:147-158 | over any run of awards each reward is handed out as often as it is configured if the level passed from below it to at least it, and never otherwise |
| Levels.GrantedCounts | src/cogs/levels.rs:147-158 | the same for one award |
| Prefixes.SanitizeKeepsCore | src/cogs/prefixes.rs:307-321 | what is accepted is the raw prefix without surrounding white space, 1 to 25 characters free of the separator, and sanitizing it again changes nothing |
| Table.RefusedText | src/cogs/prefixes.rs:307-321 | why a raw prefix is refused: the separator anywhere in it, else an empty core, else more than 25 characters |
| Prefixes.SortIsStable | src/cogs/prefixes.rs:48-51 | sorting by length keeps the order within a length |
| Prefixes.StepKeepsInv | src/cogs/prefixes.rs:33-96 | every writer keeps cached sets equal to the rows, lists sorted, 15 rows at most, every row clean; `ready` makes the cache complete |
| Prefixes.RunKeepsInv | src/http/v1/config.rs:99-137 | the same over any run of commands, hooks, dashboard writes and reconnects |
| Prefixes.DispatchIsLongest | src/framework.rs:95-110 | dispatch splits the message after the longest stored prefix it starts with, never inside a character |
| Prefixes.DispatchFollowsTheTable | src/state.rs:151-176 | so after any run that saw `ready`, read off the table alone |
| Prefixes.EventsAreLocal | src/cogs/prefixes.rs:57-301 | a command or hook for one guild leaves every other guild's rows and cache entry as they were |
| Table.PutIff | src/http/v1/config.rs:99-145 | the replacement goes through if and only if every text is accepted and they come to 15 different ones at most, and then exactly those are stored; else nothing changes and the first refused text, or the number, is the answer |
| Table.AddIff | src/cogs/prefixes.rs:127-185 | a prefix is added if and only if it is accepted, not stored and there is room, the first reason being the answer; then exactly it is new |
| Table.RemoveIff | src/cogs/prefixes.rs:196-239 | a prefix is removed if and only if it is accepted and stored; then exactly it is gone |
| Table.ClearedIsDefault | src/cogs/prefixes.rs:282-301 | a reset, or leaving, leaves a guild nothing stored or cached: its messages are read with the default alone |
| Table.FirstSeenStores | src/cogs/prefixes.rs:57-81 | a guild first seen has the default stored exactly if it had nothing, and is cached |
| Copies.StepCopies | src/cogs/prefixes.rs:40-47 | how often a prefix is listed after any event: once more on `ready`, once when added or listed anew, never when not stored |
| Copies.ReconnectsPile | src/cogs/prefixes.rs:40-47 | so over any run of events, from any state the invariant allows |
| Copies.KeptPilesUp | src/cogs/prefixes.rs:40-47 | as long as a prefix is kept, one more copy per `ready` |
| Copies.AddIsFullIff | src/cogs/prefixes.rs:139-154 | after any run, a new prefix is refused for want of room exactly when the copies, or the rows of a guild not cached, come to 15 |
| Copies.ReconnectsFill | src/cogs/prefixes.rs:148-154 | 15 reconnects, one stored prefix, and the second is refused |
| Prefixes.PrefixesCog.OnReady | src/cogs/prefixes.rs:33-53 | push every row, then sort every list |
| Prefixes.PrefixesCog.OnGuildCreate | src/cogs/prefixes.rs:57-81 | cached guilds are skipped, empty ones get the default, others their rows |
| Prefixes.PrefixesCog.OnGuildDelete | src/cogs/prefixes.rs:84-96 | rows and entry go |
| Prefixes.PrefixesCog.PrefixAdd | src/cogs/prefixes.rs:127-185 | the refusals in order, else row, list and cache |
| Prefixes.PrefixesCog.PrefixRemove | src/cogs/prefixes.rs:196-239 | the refusals in order, else the row and every copy in the list go |
| Prefixes.PrefixesCog.PrefixReset | src/cogs/prefixes.rs:282-301 | rows and entry go |
| Prefixes.PrefixesCog.PutPrefixes | src/http/v1/config.rs:99-145 | all or nothing: cleaned, without repeats, 15 at most, then the whole set replaced |

## Left out

- Discord, HTTP, the database driver, clocks and random generators: their answers are parameters of a step (done, transient, definitive; ok or failed; an index; a time).
- Commands and dashboard requests are atomic steps. Premium redemptions and giveaway presses are split at every database call, and sweeps at every row; races inside a single map operation are not modelled.
- Database failures, except where a result names them: the case write of `tempban`, the reads and writes of `warn`, the premium calls, the giveaway's read and writes.
- Blocks.ArithmeticBlock: floating-point rounding and number formatting are not modelled, because the parser is proved for any number domain; `format` is a parameter.
- Random.RandomBlock: a random number and a seed's are any number, taken below the sum; where the source stops for a sum of 0, the engine's block is empty.
- Codecs.UrlDecodeLoop: works on bytes; the final lossy conversion to text is the library's.
- Blocks that only compute text (ranges, ordinals, case, counting, replacing, time formats) are one function parameter; blocks that set one output field (embed, react, redirect, cooldown) are one logged effect with its arguments.
- Interpreter.ProcessBlock: text-only blocks are a parameter and output-field blocks one logged effect, as above; the clock and the rolls of a dispatch depend on the number of dispatches before it.
- Number comparison in conditions, white space and lower-casing are parameters.
- CaseStore.Store.WarnCommand: the case writes of the punishment itself do not fail.
- Escalation.WarnAccounting: automod's own warns, which do not escalate, and deletion of warn cases are not part of the accounting; the source promises it for warn commands.
- Moderation.StepKeepsInv: the deletion of a case whose row the sweeper holds is excluded, because the clause on scanned rows does not survive it (`Moderation.DeletionKeepsInvIff`); `Moderation.StepKeepsRows`, `Stranding.NeverStrandedIff` and `Early.SweepNeverEarlyIff` say what does and what follows.
- Moderation.RunKeepsRows: one guild; the mute role is not tracked, softban and kick are plain cases, and automatic mutes of joining members are left out.
- CaseStore.Store.LogPunishment: the case writes of the punishment itself do not fail, nor that of mutes and timeouts.
- Roles.RunKeepsTops: bulk role changes, autoroles, sticky roles and level rewards are not guarded by the member's top role and are left out; a command's role arguments are roles of the guild.
- Roles.ActingIsStrictOrder: requires both to be members and `@everyone` to be known; a member or a guild that cannot be fetched, for which the source allows the action, is a non-member here or left out.
- Roles.PermittedIff: the guild's roles are known, `@everyone` among them.
- Giveaways.Lifecycle: listing and embeds are left out, and a giveaway row is never deleted.
- Limits.RateLimiter.Allow: the 32-bit hit counter, which would take four billion hits in ten seconds to wrap, does not wrap here.
- Limits.ActorCeiling: the clock does not run backwards for one actor, and the token check before the limiters is left out.
- Cooldown.XpBound: a fixed cooldown and fixed bounds.
- Levels.LevelsCog.OnAward: the announcement and the configuration are left out.
- Effects.PassLifts: no command comes between the rows of the pass; `Effects.SweptRow` is the same for one row at any time.
- Levels.EachRewardOnce: awards are not negative, as the configuration's validation demands, totals do not wrap, and rewards are fixed.
- Prefixes.StepKeepsInv: database operations succeed, and a guild has at most 15 rows to begin with.
- Prefix listing, role-wide bulk jobs, music, translation, directory, welcome and the remaining cogs have no properties of this kind.

# imovel-match: verified model of the search, slot-grid and reply logic

imovel-match is a Telegram assistant for real-estate listings, written in Python.
A guardrail agent screens every message. A real-estate agent answers it and may
call the `search_properties` tool. A seeding script fills the viewing-slot table.
This project models three pieces of deterministic logic from that code in Dafny
and proves their properties:

- **Property search** (`PropertySearch`, `property_search.dfy`). `search_properties`
  turns ten optional filters into a `SELECT ... FROM propriedades [WHERE ...]` string
  and a `params` map.
  - `SearchQuery` is the imperative chain of ten `if ... is not None` steps that
    append to `filters` and update `params`. It is proved equal to the specification
    functions `Query` and `Params`.
  - The clause list, the operators, the order, the `WHERE`/`AND` layout and the keys
    of `params` are proved from those functions.
  - `MatchesQuery` gives the rows the query selects: a row predicate with a LIKE
    matcher for `ILIKE`. It is related to the docstring's per-argument conditions.
    No filters match every row, and adding a filter only narrows the match.
- **Slot grid** (`SlotGrid`, `slot_grid.dfy`). `generate_slots.py` rounds the current
  time up to the next half hour. It then walks 28 days, skips Sundays, and emits the
  24 starts from 08:00 to 19:30 on each remaining day. Each start is paired with every
  sampled property, and every row gets `slot_end` and `status`.
  - Time is whole minutes since 1970-01-01 00:00 local time.
  - The day loop is a method with loop invariants, proved equal to the function `Grid`.
  - The horizon always holds 576 starts. The starts are strictly increasing, the row
    keys are distinct, `slot_end - slot_start` is 30, and `status` follows the mask.
- **Telegram replies** (`MarkdownV2` in `markdown_v2.dfy`, `TelegramBot` in
  `telegram_bot.dfy`).
  - `Escape` is `escape_markdown_v2`. Its length, placement and reversibility are proved.
  - `UserData.HandleMessage` is `handle_message` as a class over the per-user store. The
    guardrail verdict and the agent run are inputs; the messages sent are an output list.
  - The skip rule, the refusal gate, append-only history, the last-shown cache, message
    order and the fallback text are all stated in its contract and in lemmas about
    `ReplyFor`.
  - `UserData.HandleDeclaredMessage` runs the same handler on the output record the
    agent declares, which has no `slots` field: it ends in the error reply (see Findings).

`Optional` (`optional.dfy`) holds the `Option` datatype that stands for Python's `None`.

## Model

| member | source | states |
|---|---|---|
| PropertySearch.ClauseList | app/tools/real_estate_tools.py:39-68 | the specification of `filters`: one clause per non-None argument, in the fixed argument order; its meaning is proved in ClauseListSpec, ClauseMembership and ClauseOperators |
| PropertySearch.Params | app/tools/real_estate_tools.py:37-68 | the specification of `params`: each non-None argument's name bound to its value, texts wrapped in `%`; proved in ParamsSpec |
| PropertySearch.Query | app/tools/real_estate_tools.py:35-71 | the specification of the final query text: the base query, then `WHERE` and the rendered clauses joined by `AND` when there are any; proved in QueryShape and NoFiltersQuery |
| PropertySearch.Show | app/tools/real_estate_tools.py:40-58 | the f-string rendering of a number in decimal, with a leading `-` when negative (see Left out for floats) |
| PropertySearch.SearchQuery | app/tools/real_estate_tools.py:35-71 | the query string and params map it builds are exactly `Query(f)` and `Params(f)` |
| PropertySearch.AddFilter | app/tools/real_estate_tools.py:39-68 | one `if ... is not None` step: the filters and params after it are those of the arguments tested so far plus this one |
| PropertySearch.Step | app/tools/real_estate_tools.py:39-68 | adding an argument to those tested extends the clause list by that argument's clause (if set) and params by that argument's entry (if set) |
| PropertySearch.SourceClauseRenders | app/tools/real_estate_tools.py:40-67 | every f-string the source appends is the column, the argument's operator and the operand |
| PropertySearch.TextClauseRenders | app/tools/real_estate_tools.py:61-67 | `col ILIKE '%v%'` for rua, bairro and cidade is the rendering of the ILIKE clause on `'%v%'` |
| PropertySearch.FilterOrderShape | app/tools/real_estate_tools.py:39-68 | the fixed order lists all ten arguments, each once, preco_min first and cidade last |
| PropertySearch.KindsOver | app/tools/real_estate_tools.py:39-68 | over any list of arguments, there is one clause per set argument, the i-th being that argument's clause, and an argument is kept iff it is listed and set |
| PropertySearch.KindsOverOrdered | app/tools/real_estate_tools.py:39-68 | the set arguments keep the order in which they are tested |
| PropertySearch.ClauseListSpec | app/tools/real_estate_tools.py:39-68 | exactly one clause per non-None argument, in the fixed order; no clauses iff no argument is set |
| PropertySearch.ClauseMembership | app/tools/real_estate_tools.py:39-68 | a clause appears iff it is the clause of some argument that is not None |
| PropertySearch.ClauseOperators | app/tools/real_estate_tools.py:39-68 | `*_min` gives `>=`, `*_max` gives `<=`, counts give `=`, and texts give ILIKE on `'%v%'` |
| PropertySearch.ZeroStillFilters | app/tools/real_estate_tools.py:51-62 | `n_quartos = 0` and `rua = ""` still add their clauses and params entries (`0` and `"%%"`), and the query gets a WHERE |
| PropertySearch.ParamsOverSpec | app/tools/real_estate_tools.py:37-68 | after any list of steps, the keys are the names of the tested set arguments, each bound to its value |
| PropertySearch.ParamsSpec | app/tools/real_estate_tools.py:37-68 | the params keys are exactly the names of the non-None arguments; numbers are bound as given and texts as `%v%` |
| PropertySearch.QueryShape | app/tools/real_estate_tools.py:35-71 | the base query is a prefix; the query is the bare base iff no argument is set; otherwise it is base + " WHERE " + the clauses joined by " AND " |
| PropertySearch.NoFiltersQuery | app/tools/real_estate_tools.py:35-71 | with every argument None: no clauses, the bare base query and an empty params map |
| PropertySearch.Like | app/tools/real_estate_tools.py:61-67 | SQL LIKE: `%` matches any run of characters, `_` any one, every other character itself; proved in LikePercent, LikeLeadingPercent, LikeLiteral and LikeContains |
| PropertySearch.ILikeMatch | app/tools/real_estate_tools.py:61-67 | ILIKE: LIKE on both sides after ASCII case folding; proved a case-insensitive substring test in ILikeContains |
| PropertySearch.Holds | app/tools/real_estate_tools.py:40-67 | what one clause means on a row: the column compared with the operand by `>=`, `<=`, `=` or ILIKE `%v%`; related to the docstring by ClauseHolds |
| PropertySearch.MatchesQuery | app/tools/real_estate_tools.py:70-73 | the rows the query selects: those on which every clause of `filters` holds; characterised by MatchesByKinds and MatchesIffSatisfies |
| PropertySearch.LikePercent | app/tools/real_estate_tools.py:61 | the pattern `%` matches every text |
| PropertySearch.LikeLeadingPercent | app/tools/real_estate_tools.py:61 | a leading `%` matches any prefix, then the rest of the pattern must match a suffix |
| PropertySearch.LikeLiteral | app/tools/real_estate_tools.py:61 | a wildcard-free piece of a pattern matches exactly itself |
| PropertySearch.LikeContains | app/tools/real_estate_tools.py:61 | for a wildcard-free value, `%v%` matches iff the text contains v |
| PropertySearch.ILikeContains | app/tools/real_estate_tools.py:61-67 | ILIKE `'%v%'` with a wildcard-free v is a case-insensitive substring test |
| PropertySearch.UnderscoreValueMatchesAnyText | app/tools/real_estate_tools.py:61 | values go into the pattern unescaped: `rua = "_"` matches every non-empty street |
| PropertySearch.ClauseHolds | app/tools/real_estate_tools.py:39-68 | for wildcard-free text, a set argument's clause holds on a row iff the row meets that argument's docstring condition |
| PropertySearch.MatchesByKinds | app/tools/real_estate_tools.py:70-71 | a row matches the AND of the clauses iff every set argument's clause holds on it |
| PropertySearch.TextsByKinds | app/tools/real_estate_tools.py:60-68 | for wildcard-free text, the three text clauses hold iff each column contains its value, ignoring case |
| PropertySearch.MatchesIffSatisfies | app/tools/real_estate_tools.py:17-30 | for wildcard-free text, the rows the query selects are exactly those meeting every given condition of the docstring |
| PropertySearch.NoFiltersMatchEveryRow | app/tools/real_estate_tools.py:70-73 | with no argument set, every row is selected |
| PropertySearch.MoreFiltersNarrow | app/tools/real_estate_tools.py:39-71 | setting more arguments never adds a selected row |
| SlotGrid.Weekday | app/scripts/generate_slots.py:73 | `day.weekday()` for a day number counted from 1970-01-01, a Thursday: Monday is 0 and Sunday 6; used by OneSundayPerWeek and DayStartsShape |
| SlotGrid.DayStarts | app/scripts/generate_slots.py:73-78 | the starts one day adds to `all_slots`: none on a Sunday, else OPEN_TIME and every 30 minutes before CLOSE_TIME; proved in DayStartsShape, DayStartsComplete and DayStartsMembership |
| SlotGrid.Grid | app/scripts/generate_slots.py:70-78 | `all_slots` after a number of iterations of the day loop: the day starts of each visited day in turn; proved in GridLength, GridMembership, GridIncreasing and HorizonSize |
| SlotGrid.ToNext | app/scripts/generate_slots.py:67 | `to_next` lies in [0, 30) and brings the minute to a multiple of 30 |
| SlotGrid.RoundUp | app/scripts/generate_slots.py:68 | the start has zero seconds and microseconds, lies on a half hour, and is the first such boundary at or after the current whole minute (less than 30 minutes after it) |
| SlotGrid.SlotStarts | app/scripts/generate_slots.py:70-78 | the loop's `all_slots` is `Grid` of the start date over 28 days |
| SlotGrid.DayStartsShape | app/scripts/generate_slots.py:9-12 | a Sunday gives no starts; any other day gives 24, from 08:00 to 19:30, each a slot boundary in [08:00, 20:00) of that day |
| SlotGrid.DayStartsComplete | app/scripts/generate_slots.py:75-78 | every half-hour boundary in business hours of a working day is emitted |
| SlotGrid.DayStartsMembership | app/scripts/generate_slots.py:75-78 | a time is among a day's starts iff it is a grid point of that day |
| SlotGrid.GridAppend | app/scripts/generate_slots.py:71-78 | running the day loop for a + b days is a days followed by b days |
| SlotGrid.GridLength | app/scripts/generate_slots.py:71-78 | every visited working day adds 24 starts |
| SlotGrid.WorkingDaysAppend | app/scripts/generate_slots.py:71-74 | the working days of a + b days are those of the first a plus those of the next b |
| SlotGrid.OneSundayPerWeek | app/scripts/generate_slots.py:73-74 | any 7 consecutive days hold exactly 6 working days |
| SlotGrid.HorizonSize | app/scripts/generate_slots.py:9-78 | whatever the start date, 28 days hold 24 working days and so 576 starts |
| SlotGrid.GridMembership | app/scripts/generate_slots.py:71-78 | a time is a start iff it is a grid point of one of the visited days |
| SlotGrid.GridBounds | app/scripts/generate_slots.py:71-78 | every start lies within the visited days |
| SlotGrid.GridIncreasing | app/scripts/generate_slots.py:70-78 | `all_slots` is strictly increasing, so no start repeats |
| SlotGrid.GridHead | app/scripts/generate_slots.py:71-78 | the loop begins with the start date's own starts |
| SlotGrid.PastSlotsOnFirstDay | app/scripts/generate_slots.py:68-75 | only the date of the rounded start is used: on a working day whose rounded start is after 08:00, the first slot lies before now |
| SlotGrid.DropDuplicates | app/scripts/generate_slots.py:23 | `drop_duplicates(subset="id")` with `keep='first'`: the ids kept are the sampled ids, each once, no more than were sampled, in the order of their first occurrences |
| SlotGrid.StatusOf | app/scripts/generate_slots.py:89 | the status is "booked" or "free", and "booked" iff the mask entry is true |
| SlotGrid.Product | app/scripts/generate_slots.py:80-84 | `MultiIndex.from_product`: each property id paired with every start, ids outermost; proved in ProductLength, ProductAt, ProductMembership and ProductDistinct |
| SlotGrid.ProductLength | app/scripts/generate_slots.py:80-84 | the product has |ids| x |slots| rows |
| SlotGrid.ProductAt | app/scripts/generate_slots.py:80-84 | row i x |slots| + j pairs the i-th property with the j-th start |
| SlotGrid.BlockMembership | app/scripts/generate_slots.py:80-84 | a property's block holds exactly that property with each start |
| SlotGrid.ProductMembership | app/scripts/generate_slots.py:80-84 | a pair is in the product iff its property and its start are both listed |
| SlotGrid.ProductDistinct | app/scripts/generate_slots.py:55-84 | distinct ids and distinct starts give distinct (property_id, slot_start) keys |
| SlotGrid.BuildRows | app/scripts/generate_slots.py:80-89 | the rows are the product in order, `slot_end - slot_start` is 30, and the status follows the mask |
| SlotGrid.GenerateSlots | app/scripts/generate_slots.py:23-89 | 576 starts; row count is ids x starts; every sampled property gets every start; keys are unique; ends and statuses as above |
| MarkdownV2.Escape | telegram_bot.py:16-19 | `escape_markdown_v2`: a backslash before each of the eighteen reserved characters, everything else kept; proved in the lemmas below |
| MarkdownV2.Unescape | telegram_bot.py:19 | the inverse substitution, removing the backslash before each reserved character; the partner of Escape in UnescapeEscape |
| MarkdownV2.ReservedCharsShape | telegram_bot.py:18 | eighteen distinct reserved characters, the backslash not among them |
| MarkdownV2.EscapeAppend | telegram_bot.py:19 | escaping works character by character: escaping a concatenation escapes both parts |
| MarkdownV2.EscapeLength | telegram_bot.py:19 | escaped length is the input length plus the number of reserved characters |
| MarkdownV2.EscapeIdentity | telegram_bot.py:19 | escaping leaves a text unchanged iff it holds no reserved character |
| MarkdownV2.EscapeStartsUnreserved | telegram_bot.py:19 | escaped text never starts with a reserved character |
| MarkdownV2.EscapedReservedArePreceded | telegram_bot.py:18-19 | in escaped text every reserved character is immediately preceded by a backslash |
| MarkdownV2.UnescapeEscape | telegram_bot.py:19 | removing the backslash before each reserved character recovers the input |
| MarkdownV2.EscapeInjective | telegram_bot.py:19 | different texts never escape to the same text |
| TelegramBot.Strip | telegram_bot.py:36 | `str.strip()`: leading, then trailing whitespace removed; proved in TrimStart, TrimEnd and StripEmptyIffBlank |
| TelegramBot.TrimStart | telegram_bot.py:36 | the result is a suffix; the removed prefix is whitespace; the result does not start with whitespace |
| TelegramBot.TrimEnd | telegram_bot.py:74 | the result is a prefix; the removed suffix is whitespace; the result does not end with whitespace |
| TelegramBot.StripEmptyIffBlank | telegram_bot.py:36-37 | stripping leaves nothing iff the text is all whitespace |
| TelegramBot.BlankConcat | telegram_bot.py:74 | a concatenation is all whitespace iff both parts are |
| TelegramBot.EscapeCharBlank | telegram_bot.py:19 | a character's escape is whitespace iff the character is |
| TelegramBot.EscapeKeepsBlank | telegram_bot.py:61-62 | escaping keeps a text all-whitespace or not |
| TelegramBot.ShownTableNotRepeated | telegram_bot.py:64-72 | a table just shown is not shown again while it is the cached one |
| TelegramBot.ComposeReply | telegram_bot.py:59-79 | the reply is `ReplyFor` of the output and the old cache; the new caches are `NextShown` of each table |
| TelegramBot.IsSkipped | telegram_bot.py:36 | the input is skipped iff it is all whitespace |
| TelegramBot.UserData.constructor | telegram_bot.py:41 | a new user has no history and no cached tables |
| TelegramBot.UserData.HandleMessage | telegram_bot.py:31-79 | whitespace input: nothing sent, state unchanged; guardrail broken: typing, then the refusal, with state unchanged; otherwise typing, then `ReplyFor`, with the run's new messages appended to the history and both caches advanced by `NextShown` |
| TelegramBot.MessageParts | telegram_bot.py:59-72 | the `message_parts` list: the escaped response if truthy, then each table's header and code block when it is truthy and differs from the cached one; proved in ConcatResponsePart, ConcatTablePart and MessageOrder |
| TelegramBot.ReplyFor | telegram_bot.py:74-79 | the reply sent: the stripped join of the parts in MarkdownV2 mode, or the fallback text in plain mode when it is empty; proved in FallbackIff and TablesVerbatim |
| TelegramBot.ConcatResponsePart | telegram_bot.py:61-62 | the response contributes its escaped text when truthy, nothing otherwise |
| TelegramBot.ConcatTablePart | telegram_bot.py:64-72 | a table contributes its header and code block when shown, nothing otherwise |
| TelegramBot.MessageOrder | telegram_bot.py:59-74 | the joined message is the escaped response, then the properties block, then the slots block |
| TelegramBot.ResponseTextBlank | telegram_bot.py:61-62 | the response's part is blank iff the response is missing, empty or all whitespace |
| TelegramBot.TableTextBlank | telegram_bot.py:64-72 | under a non-blank header, a table's part is blank iff the table is not shown |
| TelegramBot.FallbackIff | telegram_bot.py:74-79 | the fallback text is sent iff the response is missing or blank and neither table is shown |
| TelegramBot.TablesVerbatim | telegram_bot.py:64-66 | a shown properties table is among the parts, unescaped, inside its code fence |
| TelegramBot.DeclaredAttribute | app/models/real_estate_models.py:5-7 | attribute access on the declared output record, whose only fields are `response` and `properties`; HandleDeclaredMessage uses it for the `slots` read at telegram_bot.py:69 |
| TelegramBot.UserData.HandleDeclaredMessage | telegram_bot.py:31-83 | `handle_message` as written on the declared output record: whitespace input and refusals as in HandleMessage; otherwise the history grows by the run's messages, the properties cache advances, the slots cache stays, and the messages sent are typing then the error text |
| TelegramBot.DeclaredReplyDiffers | telegram_bot.py:57-83 | on the same declared output HandleMessage leaves the same caches but never sends the error text, and a response with non-whitespace text gets a MarkdownV2 reply; the equal history follows from the two methods' own ensures |

## Left out

- The database is left out. Opening DuckDB, `execute`, `fetch_df`, `to_markdown`, the table DDL, the deletes and the inserts are foreign library calls or I/O. The rows of `propriedades` are a `Listing` value, and the query's meaning is the predicate `MatchesQuery`.
- The `params` map is built and proved but never passed to `execute` (app/tools/real_estate_tools.py:73). Values go into the SQL text raw, so quoting and injection are not modelled and no sanitisation is claimed: a text value holding `'` (such as `x' OR 'a'='a`) changes the SQL the database parses, while `MatchesQuery` still reads it as one ILIKE operand. `%` and `_` inside a value act as LIKE wildcards, as `UnderscoreValueMatchesAnyText` shows.
- Show: `preco` and `tamanho` are floats in the source. The model takes integers and writes them in decimal, so Python's float rendering (`100.0`) is not modelled.
- Lower: folds only ASCII letters, and so do ILikeMatch, Holds and MatchesQuery, which use it. The database's Unicode case folding for ILIKE is not modelled: `ILikeMatch("SÃO", "%são%")` is false although the database matches it. The code does no diacritic normalisation, so none is modelled.
- MatchesIffSatisfies: holds only for text filters without `%` or `_`. With wildcards the query means a LIKE match, not a substring test. A text filter holding `'` also falls outside it in the real database, since it rewrites the SQL (see the `params` line above).
- An empty search result is not signalled as an error in the code: the tool returns an empty table. Booking, cancelling and free-slot lookup have no code in this repository, so they are not modelled.
- generate_slots.py: the wall clock and the time zone (line 66) are left out. The current time is an input in whole local minutes. `astimezone()` gives a fixed UTC offset that every slot reuses, so the source applies no daylight-saving shift either, and the model's single local timeline matches it.
- generate_slots.py: the property sample (line 22) and the random mask (lines 87-88) are inputs. The mask is given one boolean per row, so `BOOKED_RATIO` is not modelled. Property columns other than id are not modelled.
- generate_slots.py: the printed totals (lines 96-98) are left out.
- PastSlotsOnFirstDay: the source uses only the date of the rounded start, so day 0 also gets the slots before the current time. This is stated as a property, not changed.
- The Telegram transport is not modelled: `send_chat_action` and `reply_text` appear as `BotAction` values. The async runtime, the polling loop, `/start` and mlflow autologging are left out too.
- The guardrail and real-estate agents are language-model calls. Their verdict (`rulesBroken`) and run (`AgentRun`) are inputs, and the user's first name and the database handle passed to the agent are not modelled. When the guardrail refuses, the agent run is not used.
- HandleMessage: the generic `except` path (lines 81-83) is not modelled for failures of the agents or of Telegram. It is modelled only for the `slots` mismatch below, in `UserData.HandleDeclaredMessage`.
- escape_markdown_v2 does not escape the backslash itself. Tables go inside code fences unescaped, so a backtick or backslash in a table is sent as it is. Both are modelled the way the code does them.
- `str.strip()` whitespace is the set of characters that Python's `str.isspace` accepts.

## Findings

| source | as written | input that shows it | evidently intended | confidence | as-written member | corrected member |
|---|---|---|---|---|---|---|
| telegram_bot.py:69 | reads `output.slots`, but `RealStateAgentOutput` (app/models/real_estate_models.py:5-7) declares only `response` and `properties`, so the read raises; the generic handler then sends the error text after the history and the properties cache were already written; DeclaredReplyDiffers shows that HandleMessage would have answered differently | an agent output with response "Olá" and no properties | the output record has an optional `slots` table, and the reply is built from response, properties and slots | high; not executed | TelegramBot.UserData.HandleDeclaredMessage | TelegramBot.UserData.HandleMessage |

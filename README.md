# reddit-modlinker core, modelled in Dafny

The modlinker bot watches Reddit for trigger phrases such as
`link[3]scenarios: a, b, c` and replies with links to RimWorld mods and
scenarios from the Steam Workshop. This project models the parts of the bot
that decide what is searched for and what the reply looks like, and proves
properties about them:

- `workshop.dfy` (module `Workshop`) models the request side (workshop.py):
  - the codec between version labels such as "A17" and Workshop version tags
    such as "0.17" (`_tagsToAlpha`, `alphaToTag`);
  - the author lookup (`_findAuthor`);
  - the construction of a search request (`ModRequest.__init__`);
  - the parsing of a trigger capture into requests (`ModRequest.fromQuery`).
- `formatting.dfy` (module `Formatting`) models the reply side
  (bot/formatting.py):
  - the rendering of one result row (`formatMod`) and of the markdown block
    for one request (`formatResults`);
  - the greedy packer that spreads those blocks over comments of bounded size
    (`createPosts`), as a method over a mutable deque proved against a
    recursive specification function `Pack`.
- `strings.dfy` (module `Strings`) holds the Python string builtins the core
  relies on:
  - the `\d` and whitespace classes of Python 2 byte strings;
  - `str.strip()`;
  - `re.split` on a one-character pattern;
  - `int()` on a digit string;
  - `str()` of an integer.
- `common.dfy` holds the constants of bot/common.py: `MAX_RESULTS`,
  `MAX_LENGTH` and `FOOTER`.
- `wrappers.dfy` holds the `Option` type that stands for a Python `None`
  return.

The regular expressions are written out as predicates over characters.
`_tag_regex` is `\d\.(\d{2})` applied with `re.match`, so it is anchored at the
start only. `_alpha_regex` is `(\d{2})` applied with `re.search`, which takes
the leftmost match.

Two error paths of the code are modelled as written:
- A 3-tuple capture whose count is not a digit string would make `int()`
  raise. This is a precondition (`ValidCapture`).
- A tuple of any length other than 2 or 3 makes `fromQuery` fall off its end
  and return `None`. This is the `None` of an `Option`.

Three consequences of the code as written:
- The fit check at bot/formatting.py:57 counts the block, the reply and the
  footer but not the `"\n\n"` added in front of the block at line 58. So a
  post can be up to `MAX_LENGTH + 2` characters long. `PackPosts` proves that
  bound and `LongestPost` shows that it is reached.
- The count is capped from above only (workshop.py:126-127). `ZeroCountExample`
  gives a request for 0 results.
- The loop guard at bot/formatting.py:52 stops as soon as the reply plus the
  footer reaches `MAX_LENGTH`, even with blocks still queued. Those blocks stay
  in the caller's deque and are never posted (`Stranded`). `PackLeaves` proves
  that they are a suffix of the input in their order, and that they are only
  left when the last post has reached the limit.

## Model

| member | source | states |
|---|---|---|
| Strings.Strip | workshop.py:165 | `part.strip()` is the infix of the text after its leading whitespace with only whitespace after it; it neither starts nor ends with whitespace, and it is empty exactly when the text is all whitespace |
| Strings.StripPadded | workshop.py:165 | stripping a stripped text padded on both sides with whitespace gives back exactly that text |
| Strings.Split | workshop.py:164 | `re.split(r',', s)` gives at least one piece, no piece contains the separator, and joining the pieces with the separator gives back `s` |
| Strings.DecimalRoundTrip | bot/formatting.py:21 | the decimal text of a count reads back as that count |
| Workshop.TagsToAlpha | workshop.py:52-58 | `_tagsToAlpha` returns "A" plus the two digits after the dot of the first tag, in list order, that starts with digit, dot, digit, digit; it returns nothing exactly when no tag does |
| Workshop.FirstDigitPair | workshop.py:60-62 | the `re.search` scan finds the leftmost index at or after the start where two adjacent digits begin, or reports that there is none |
| Workshop.AlphaToTag | workshop.py:60-65 | `alphaToTag` returns "0." plus the first two adjacent digits of the label's text (`str()` of a number); it returns nothing exactly when there are no two adjacent digits |
| Workshop.LabelTagRoundTrip | workshop.py:52-65 | for a label whose first digit pair is dd, `alphaToTag` gives "0.dd" and `_tagsToAlpha` of that one tag gives "Add" |
| Workshop.TagLabelRoundTrip | workshop.py:52-65 | the label read from a tag list that begins with d.dd turns back into the tag "0.dd": the digits after the dot survive, and the major digit becomes 0 |
| Workshop.AlphaExample | workshop.py:60-65 | "A17" gives "0.17" |
| Workshop.LongAlphaExample | workshop.py:60-65 | "A175" gives "0.17": only the first digit pair is taken |
| Workshop.NumberAlphaExample | workshop.py:60-65 | the number 17 gives "0.17" through its decimal text |
| Workshop.SplitDigitsExample | workshop.py:60-65 | "A1 7" has no two adjacent digits and gives nothing |
| Workshop.TagExample | workshop.py:52-58 | [Mod, 0.175] gives "A17": non-version tags are skipped, and the pattern is not anchored at the end |
| Workshop.FindAuthor | workshop.py:67-71 | `_findAuthor` returns the first author in list order whose steamid is the file's creator, and nothing exactly when no author matches |
| Workshop.FirstAuthorWins | workshop.py:68-70 | of two records whose steamid is the file's creator, the one listed first is returned, whatever the other holds |
| Workshop.NewModRequest | workshop.py:123-135 | a constructed request keeps the kind and the query; a count above MAX_RESULTS becomes MAX_RESULTS and any other count is unchanged (no lower bound); the tags are the given tags in order followed by exactly one "Mod" or "Scenario" |
| Workshop.BuildModRequest | workshop.py:123-135 | the constructor's steps (convert, cap, copy, append) build the request NewModRequest describes |
| Workshop.KeptQueries | workshop.py:165 | the kept queries are no more than the segments, each is stripped and non-empty, and none has a comma when no segment has one |
| Workshop.FromQuery | workshop.py:144-165 | a bare string gives one mod request with count 1 and tags ["Mod"]; a non-string non-tuple gives []; a pair gives one request with kind "mod" exactly when its first item is "mod" and the unstripped second item as query; a triple gives one request per kept query, in order, all with the same kind and count; any other tuple gives None |
| Workshop.KeptQueriesAppend | workshop.py:165 | keeping queries commutes with concatenating segment lists, so the order of the segments is kept |
| Workshop.KeptQueriesPadded | workshop.py:165 | a segment that is a query padded with whitespace contributes that query and nothing else |
| Workshop.KeptQueriesBlank | workshop.py:165 | a segment of whitespace only contributes nothing |
| Workshop.TripleRequests | workshop.py:160-165 | every request of a triple has a stripped, comma-free query, the shared kind and tags [kind], and count 1 when the count capture is empty, else the captured number capped at MAX_RESULTS |
| Workshop.SplitNoSeparator | workshop.py:164 | a text without a comma is a single segment |
| Workshop.SplitFirstSeparator | workshop.py:164 | splitting cuts at the first comma and splits the rest in turn |
| Workshop.ExampleSplit | workshop.py:164 | for comma-free a, b, c, the list "a, b ,, c" splits into a, " b ", "" and " c" |
| Workshop.ExampleKeptLast | workshop.py:165 | the segment " c" is kept as c |
| Workshop.ExampleKeptBlank | workshop.py:165 | the empty segment in front of it is dropped |
| Workshop.ExampleKeptMiddle | workshop.py:165 | the segment " b " in front of those is kept as b |
| Workshop.ExampleKept | workshop.py:165 | the four segments of "a, b ,, c" keep as a, b, c |
| Workshop.SingleQuery | workshop.py:164-165 | a stripped, comma-free list is its own only query |
| Workshop.CountedTriggerExample | workshop.py:160-165 | ("3", "scenario", "a, b ,, c") gives three scenario requests for a, b and c, in order, each with count 3 and tags ["Scenario"] |
| Workshop.ZeroCountExample | workshop.py:124-127 | ("0", "mod", q) gives one request for 0 results: nothing raises the count |
| Formatting.FormatMod | bot/formatting.py:31-42 | `formatMod` returns a non-empty row that ends in a line break |
| Formatting.FormatModShape | bot/formatting.py:31-42 | every row is "[alpha] " (only when the title does not name the version, and "None" when there is no label), then the linked title, " \| by " in a table or " by " in prose, the linked author and a line break, with the fields inserted verbatim |
| Formatting.RowsAppend | bot/formatting.py:19-20 | the rows of a concatenation of result lists are the rows of each list, in order |
| Formatting.RowIsOneLine | bot/formatting.py:31-42 | a row of fields without line breaks holds exactly one line break |
| Formatting.RowsAreLines | bot/formatting.py:18-20 | the table has exactly one line per mod |
| Formatting.FormatResults | bot/formatting.py:6-29 | no result gives the apology naming the query and its URL; one result gives its prose row and the single-result caption; several give "Mod \| Author \n :-\|-: \n", one tabular row per mod in order, and a caption whose number reads back as the number of mods, not the requested count |
| Formatting.Deque.PopLeft | bot/formatting.py:54 | `popleft` returns the first block and removes it |
| Formatting.Deque.AppendLeft | bot/formatting.py:68 | `appendleft` puts the block back in front |
| Formatting.Pack | bot/formatting.py:50-76 | the loop of `createPosts` as a recursive function of the queued blocks and the reply in progress: take a block that fits, drop one that never can, otherwise put it back and post; a reply in progress is always posted eventually |
| Formatting.CreatePosts | bot/formatting.py:44-78 | the loop, popping from and pushing back onto the caller's deque, returns the posts that Pack computes from an empty reply and leaves in the deque the blocks Pack leaves |
| Formatting.PackPosts | bot/formatting.py:50-76 | every post is a non-empty reply starting with "\n\n" followed by the footer, never the footer alone, and at most MAX_LENGTH + 2 long |
| Formatting.PackLeaves | bot/formatting.py:52-76 | the blocks left in the deque are a suffix of the input in their order; when the footer is shorter than the limit and blocks are left, the last post is at least MAX_LENGTH long |
| Formatting.PackNothing | bot/formatting.py:50-76 | no post is made exactly when there is no reply in progress and every block is too long to fit with the footer; in particular, no blocks give no posts |
| Formatting.PackOrder | bot/formatting.py:54-72 | the posts without their footers, followed by the still-queued blocks that could ever fit, spell out the reply in progress and then "\n\n" + block for every block that could ever fit, in order: nothing is lost, reordered or repeated |
| Formatting.PackRuns | bot/formatting.py:52-76 | no block is split between posts: each post without its footer is its own reply in progress (first post only) followed by a run of whole blocks, each that can ever fit behind "\n\n"; when anything is posted, the runs one after the other followed by the blocks left queued are exactly the blocks given |
| Formatting.PackTaken | bot/formatting.py:54-72 | the posts without their footers are exactly "\n\n" + block for every block taken from the deque, in order, except those too long ever to fit |
| Formatting.LongestPost | bot/formatting.py:57-58 | a lone block of length MAX_LENGTH − \|FOOTER\| becomes one post of length MAX_LENGTH + 2 |
| Formatting.Stranded | bot/formatting.py:52-58 | after a block of length MAX_LENGTH − \|FOOTER\| − 2, the next block is never posted and stays in the deque |
| Common.FooterFits | bot/common.py:37-40 | the bot's footer is non-empty and shorter than MAX_LENGTH, so the paginator lemmas that need this apply to the bot |

## Left out

- `search` (workshop.py:73-102) is left out. It calls the Steam Web API and mutates the module-level `_params` dictionary, so it is network I/O plus global state.
- `Mod.__init__` and `Mod.__repr__` (workshop.py:104-116) are left out: the UTF-8 `.encode` calls are foreign library behaviour. A `Formatting.Mod` holds its title, URL, author name, author URL and version label directly.
- `ModRequest.getUrl` (workshop.py:137-141) is left out because it relies on `urllib.urlencode`. `FormatResults` takes its result as an opaque string.
- `Mod.nameIncludesAlpha` is not part of this model. It is not defined in the bot's own files, so it is a plain boolean field of `Formatting.Mod`.
- `ModRequest.__repr__` (workshop.py:167-168) is left out. It only renders a request for logging.
- ValidCapture: `int()` is modelled only on strings of ASCII digits. The whitespace, sign and non-numeric inputs it also handles or rejects are not modelled, so a count string that makes it raise is excluded by a precondition.
- Workshop.NewModRequest: `ModRequest` is an immutable value. The in-place `append` on the copied tag list is a concatenation, which loses nothing because the copy is never shared. The `isinstance(count, basestring)` test is the `Count` datatype.
- Strings.Strip: every string is a Python 2 byte string. `fromQuery` also accepts `unicode` (workshop.py:148), and that is not modelled. On unicode, `strip()` (workshop.py:165) also removes \x1c–\x1f, \x85, \xa0 and the other Unicode spaces, so a segment such as u"\xa0" is dropped by the code but kept as a query by `Workshop.KeptQueries`. `str()` in `alphaToTag` (workshop.py:62) raises on non-ASCII unicode, which `Workshop.LabelText` does not model either.
- All `log.*` calls are left out. They have no effect on results.
- `createPosts` reads `MAX_LENGTH` and `FOOTER` as globals. `CreatePosts` and `Pack` take them as parameters, and `Common.FooterFits` connects the bot's own values to the lemmas.
- bot/database.py is not part of this model (MongoDB I/O).
- The environment-variable reads and credentials in bot/common.py are left out, and so are the `__main__` blocks. Only `MAX_RESULTS`, `MAX_LENGTH` and `FOOTER` are modelled.
- The Reddit trigger grammar that produces the capture is not part of this model. `Workshop.Capture` stands for its output: a string, a tuple of strings, or anything else.

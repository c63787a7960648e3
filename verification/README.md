# PubMed RSS to Slack: a verified model of the run

`post_pubmed_rss.py` reads a PubMed RSS feed, turns each entry into an item
`(id, title, link, abstract)` and posts to a Slack webhook one message for each
item whose id it has not posted before. The ids already posted live in a JSON
state file. On a first run (an empty state) it posts nothing. It only records
the ids of everything in the feed, so that later runs announce only papers that
are new.

The model has five modules:

- `Text` (`text.dfy`) covers Python's `str.isspace`, `strip` and `rstrip` on code points, the `\s*` runs of the tag patterns, and the search for the first occurrence of one character that the tag pattern and the reading of a link line rely on.
  - `Visible` keeps the non-whitespace characters of a text in order; it states which rewrites touch whitespace only.
- `Sanitize` (`sanitize.dfy`) covers `sanitize_text` and `slack_escape_label`.
  - Each regular-expression substitution is a character-level scan. It tries the pattern at the current position, replaces a match and resumes after it, and otherwise copies one character.
  - `Clean` is the shape every sanitised text has: no outer whitespace, no `\r`, no tab, no two adjacent spaces and no three adjacent newlines.
- `Entries` (`entries.dfy`) covers the feed entry as the parser hands it over (`RawEntry`, whose `Option` fields stand for attributes that are missing or `None`).
  - It models `entry_id`, `extract_abstract` and the per-entry step of the item loop (`Normalize`).
  - The loop itself is `CollectItems`. It is proved against the specification function `NormalizeAll`.
- `Format` (`format.dfy`) is the message block of the delivery loop as pure functions. `ParseLinkLine` states how Slack reads a link line back.
- `Reconcile` (`reconcile.dfy`) is the run.
  - Class `Reconciler` owns the `posted` set and a `log` of what outlives the run: each message `Sent` to the webhook and each `Saved` snapshot of the state file, in order.
  - Its methods are `Prime` (first run), `PostInOrder` (the delivery loop), `Deliver` and `Run`.
  - They are proved against the specification functions `Reverse`, `Unseen`, `NewItems`, `IdSet` and `DeliveryLog`, whose properties are lemmas.

Collaborators the model does not contain become parameters:

- `html.unescape` is the parameter `unescape: string -> string`, and every property holds whatever it returns.
- The outcome of each webhook post is the oracle `accept: nat -> bool`, indexed by the position of the post in the run. A failed post ends the run, as the exception raised by `raise_for_status` does.
- Loading the state is the constructor argument; each save is a `Saved` event.
- The channel label and `ABSTRACT_CHARS` are the parameters `channelLabel` and `limit`. `Run` strips the label, as line 54 does.

Behaviours of the code that the model keeps as they are:

- **No save after a failed post.** A failed post raises out of `main`, so the final `save_state` (line 113) runs only when every post succeeded. The save after each successful post (line 110) keeps the progress made before the failure.
- **Whitespace-only `id`.** `entry_id` takes the first *truthy* value among `id`, `guid` and `link` and strips it afterwards. A whitespace-only `id` therefore wins over a good `guid` or `link`, and the entry is dropped (`BlankIdDropsEntry`).
- **Empty feed on a first run.** Priming an empty feed leaves the state empty, so the next run is again a first run and posts nothing (`PrimedSetEmpty` together with `Run`). The model keeps this behaviour and does not change it.
- **Empty title line is kept.** With a label and an abstract but no title and no link, the message keeps an empty line between them (`AssembleLayout`).
- **Link is not escaped.** The link goes into `<link|title>` unescaped. `LinkLineRoundTrip` needs a link free of `|` and `>` to read back.

## Model

| member | source | states |
|---|---|---|
| Text.IsSpace | post_pubmed_rss.py:36-42 | space, tab, newline, vertical tab, form feed and carriage return are whitespace for `\s` and `strip()`, and no printable ASCII character is |
| Text.Strip | post_pubmed_rss.py:42 | `strip()` leaves no whitespace at either end and returns a contiguous slice of its input that starts after the leading whitespace |
| Text.RStrip | post_pubmed_rss.py:103 | `rstrip()` returns a prefix of its input whose last character is not whitespace, and everything it drops is whitespace |
| Text.StripEmpty | post_pubmed_rss.py:27-30 | a text strips to "" exactly when it is entirely whitespace |
| Text.StripNoOuter | post_pubmed_rss.py:42 | stripping is the identity on text without outer whitespace, so it is idempotent |
| Text.SkipSpaces | post_pubmed_rss.py:36-37 | a `\s*` run starting at index `i` covers only whitespace and stops at the first non-whitespace character at or after `i`, or at the end of the text |
| Text.SkipSpacesTo | post_pubmed_rss.py:36-37 | a whitespace run from `i` up to a non-whitespace character at `j` (or the end) is skipped exactly up to `j` |
| Text.VisibleStrip | post_pubmed_rss.py:42 | `strip()` removes whitespace only: the non-whitespace characters stay, in order |
| Text.IndexOf | post_pubmed_rss.py:38 | the position of the first occurrence of a character, with none of it before, or the length when it does not occur |
| Text.IndexOfAfter | post_pubmed_rss.py:98 | in `a + [c] + b` with `c` absent from `a`, the first `c` is at position `|a|` |
| Sanitize.BreakTagLength | post_pubmed_rss.py:36 | a match of `(?i)<\s*br\s*/?\s*>` at the start is at least 4 characters long, begins with `<` and ends with `>` |
| Sanitize.ParaCloseLength | post_pubmed_rss.py:37 | a match of `(?i)</\s*p\s*>` at the start begins with `</`, ends with `>` and is at least 4 long |
| Sanitize.TagLength | post_pubmed_rss.py:38 | a match of `<[^>]+>` is a `<`, at least one character other than `>`, then `>` |
| Sanitize.ReplaceBreakTagsKeeps | post_pubmed_rss.py:36 | the break-tag substitution copies text before the first `<` unchanged |
| Sanitize.PlainBreakTagMatch | post_pubmed_rss.py:36 | `<`, whitespace, `br` in either case, whitespace, `>` is matched in full |
| Sanitize.SelfClosingBreakTagMatch | post_pubmed_rss.py:36 | `<`, whitespace, `br` in either case, whitespace, `/`, whitespace, `>` is matched in full |
| Sanitize.BreakTagReplaced | post_pubmed_rss.py:36 | every form of line-break tag the pattern allows becomes exactly one newline, and the scan resumes right after it |
| Sanitize.ReplaceParaCloseTagsKeeps | post_pubmed_rss.py:37 | the paragraph-end substitution copies text before the first `<` unchanged |
| Sanitize.ParaCloseReplaced | post_pubmed_rss.py:37 | every form of `</p>` the pattern allows becomes exactly one newline, and the scan resumes right after it |
| Sanitize.StripTagsKeeps | post_pubmed_rss.py:38 | tag removal copies text before the first `<` unchanged |
| Sanitize.TagRemoved | post_pubmed_rss.py:38 | a `<`, at least one character, and the first `>` after it are deleted entirely |
| Sanitize.KeptOpenerNoTag | post_pubmed_rss.py:38 | a `<` that tag removal keeps starts no tag in the output |
| Sanitize.StripTagsNoTag | post_pubmed_rss.py:38 | no match of `<[^>]+>` starts anywhere in the result of tag removal |
| Sanitize.ReplaceBreakTags | post_pubmed_rss.py:36 | the substitution never lengthens the text and is the identity on text without `<` |
| Sanitize.ReplaceParaCloseTags | post_pubmed_rss.py:37 | the substitution never lengthens the text and is the identity on text without `<` |
| Sanitize.StripTags | post_pubmed_rss.py:38 | tag removal never lengthens the text and is the identity on text without `<` and on text without `>` |
| Sanitize.ReplaceChar | post_pubmed_rss.py:39 | single-character `replace` keeps the length and changes exactly the occurrences of the replaced character |
| Sanitize.ReplaceCrLf | post_pubmed_rss.py:39 | replacing `\r\n` never lengthens the text and is the identity without `\r` |
| Sanitize.CrLfChars | post_pubmed_rss.py:39 | replacing `\r\n` by `\n` introduces no new character |
| Sanitize.NormalizeLineEndings | post_pubmed_rss.py:39 | after both replacements no `\r` is left, the only character added is `\n`, and text without `\r` is unchanged |
| Sanitize.ReplaceCrLfKeeps | post_pubmed_rss.py:39 | replacing `\r\n` copies text before the first `\r` unchanged |
| Sanitize.LineEndingsKeep | post_pubmed_rss.py:39 | line-ending normalisation copies text before the first `\r` unchanged |
| Sanitize.LineEndingsCrLf | post_pubmed_rss.py:39 | a `\r\n` pair becomes exactly one `\n` |
| Sanitize.LineEndingsCr | post_pubmed_rss.py:39 | a `\r` not followed by `\n` becomes exactly one `\n` |
| Sanitize.VisibleReplaceCrLf | post_pubmed_rss.py:39 | replacing `\r\n` changes whitespace only |
| Sanitize.VisibleReplaceCr | post_pubmed_rss.py:39 | replacing `\r` by `\n` changes whitespace only |
| Sanitize.VisibleLineEndings | post_pubmed_rss.py:39 | line-ending normalisation keeps every non-whitespace character, in order |
| Sanitize.NewlineRun | post_pubmed_rss.py:40 | the length of the maximal run of newlines at the start |
| Sanitize.CollapseNewlines | post_pubmed_rss.py:40 | collapsing newline runs keeps non-empty text non-empty and keeps whether it starts with a newline |
| Sanitize.CollapseNewlinesSound | post_pubmed_rss.py:40 | after `\n{3,}` becomes `\n\n` no three newlines are adjacent and no character is introduced |
| Sanitize.CollapseNewlinesKeep | post_pubmed_rss.py:40 | newline collapsing copies text before the first `\n` unchanged |
| Sanitize.CollapseNewlinesRun | post_pubmed_rss.py:40 | a whole run of one or two newlines is kept, and a run of three or more becomes exactly two |
| Sanitize.VisibleNewlineRun | post_pubmed_rss.py:40 | a leading run of newlines holds no visible character, before or after collapsing |
| Sanitize.VisibleCollapseNewlines | post_pubmed_rss.py:40 | newline collapsing keeps every non-whitespace character, in order |
| Sanitize.BlankRun | post_pubmed_rss.py:41 | the length of the maximal run of spaces and tabs at the start |
| Sanitize.CollapseBlanks | post_pubmed_rss.py:41 | collapsing blank runs turns a leading space or tab into one space and keeps any other first character |
| Sanitize.CollapseBlanksChars | post_pubmed_rss.py:41 | after `[ \t]+` becomes a space no tab is left and only spaces are introduced |
| Sanitize.CollapseBlanksNoDoubleSpace | post_pubmed_rss.py:41 | after `[ \t]+` becomes a space no two spaces are adjacent |
| Sanitize.CollapseBlanksNoTriple | post_pubmed_rss.py:40-41 | collapsing blanks after collapsing newlines cannot create three adjacent newlines |
| Sanitize.CollapseBlanksKeep | post_pubmed_rss.py:41 | blank collapsing copies text before the first space or tab unchanged |
| Sanitize.CollapseBlanksRun | post_pubmed_rss.py:41 | a whole run of spaces and tabs becomes exactly one space |
| Sanitize.VisibleCollapseBlanks | post_pubmed_rss.py:41 | blank collapsing keeps every non-whitespace character, in order |
| Sanitize.StripClean | post_pubmed_rss.py:42 | stripping a text free of `\r`, tabs, double spaces and newline triples yields a clean text |
| Sanitize.CollapseAndStripClean | post_pubmed_rss.py:40-42 | the last three steps of the sanitiser turn any text without `\r` into a clean text |
| Sanitize.SanitizeText | post_pubmed_rss.py:32-42 | `sanitize_text` maps "" to "" and every text to a clean text, whatever `html.unescape` returns |
| Sanitize.SanitizeKeepsVisible | post_pubmed_rss.py:32-42 | on a non-empty text whose decoded form has no `<`, sanitising changes whitespace only: the non-whitespace characters of the decoded text come out unchanged and in order |
| Sanitize.EscapeKeepsClean | post_pubmed_rss.py:48 | a one-for-one replacement that keeps whitespace exactly where it was and changes only `|`, `<` and `>` keeps a clean text clean |
| Sanitize.SlackEscapeLabel | post_pubmed_rss.py:44-48 | `slack_escape_label` keeps the length, leaves no `|`, `<` or `>`, maps `|` to `¦`, `>` to `›` and `<` to `‹`, keeps every other character and keeps a clean text clean |
| Entries.OrEmpty | post_pubmed_rss.py:27 | `getattr(e, name, "") or ""` is non-empty exactly when the attribute is truthy, and then it is its value |
| Entries.EntryId | post_pubmed_rss.py:66-67 | `entry_id` is the stripped first truthy value among `id`, `guid` and `link`, "" when none is truthy, and has no outer whitespace |
| Entries.BlankIdDropsEntry | post_pubmed_rss.py:66-73 | a whitespace-only `id` is chosen, gives the empty id, and the entry is skipped even when `guid` or `link` is present |
| Entries.ExtractAbstract | post_pubmed_rss.py:26-30 | `extract_abstract` is the stripped summary when that is not empty, otherwise the stripped description, and has no outer whitespace |
| Entries.ExtractAbstractEmpty | post_pubmed_rss.py:26-30 | the abstract is empty exactly when summary and description are both missing or whitespace only |
| Entries.Normalize | post_pubmed_rss.py:71-77 | an entry yields an item exactly when its id is non-empty; the item carries that id and the stripped link |
| Entries.NormalizeWellFormed | post_pubmed_rss.py:71-77 | every item has a non-empty stripped id, a clean title free of `|`, `<`, `>`, a stripped link and a clean abstract |
| Entries.NormalizeAll | post_pubmed_rss.py:69-77 | the items list is no longer than the entry list |
| Entries.NormalizeAllStep | post_pubmed_rss.py:70-77 | one more entry appends its item, if it has one, at the end of the list |
| Entries.NormalizeAllWellFormed | post_pubmed_rss.py:69-77 | every collected item is well formed, in particular its id is non-empty |
| Entries.NormalizeAllIds | post_pubmed_rss.py:69-77 | the ids of the items are exactly the non-empty `entry_id`s of the entries, in feed order |
| Entries.CollectItems | post_pubmed_rss.py:69-77 | the loop builds exactly the items list of the feed, all of them well formed |
| Format.TitleLine | post_pubmed_rss.py:98-100 | the title line is `*<link|title>*`, `*title*` or `*link*` according to which is present, and empty exactly when both are |
| Format.LinkLineRoundTrip | post_pubmed_rss.py:98-100 | Slack reads the link and the escaped title back from `*<link|title>*` when the link has no `|` or `>` |
| Format.ParseLinkLine | post_pubmed_rss.py:98-100 | a link line that reads back gives a URL free of `|` and `>` and a text free of `>` |
| Format.ParseLinkLineSound | post_pubmed_rss.py:98-100 | a line reads back only when it is exactly `*<url|text>*` for the URL and text it yields |
| Format.TruncateAbstract | post_pubmed_rss.py:101-103 | the abstract line has no outer whitespace, is at most `limit + 1` long for a positive limit, and is the stripped abstract when no cut is needed |
| Format.TruncateAbstractCut | post_pubmed_rss.py:102-103 | a cut abstract ends with `…` after a prefix of the first `limit` characters that loses only trailing whitespace |
| Format.AssembleMessage | post_pubmed_rss.py:104-107 | the assembled message has no outer whitespace |
| Format.FormatMessage | post_pubmed_rss.py:97-107 | the message for an item has no outer whitespace |
| Format.StripTrailingNewline | post_pubmed_rss.py:107 | stripping removes just the newline after a label with nothing following |
| Format.StripLeadingNewline | post_pubmed_rss.py:105 | stripping removes just the newline before an abstract with nothing preceding |
| Format.AssembleTitleOnly | post_pubmed_rss.py:107 | without label and abstract the message is the title line |
| Format.AssembleLabelOnly | post_pubmed_rss.py:107 | with a label and no title line or abstract the message is the label alone |
| Format.AssembleAbstractOnly | post_pubmed_rss.py:105 | with no label and no title line the message is the abstract line alone |
| Format.AssembleWithoutAbstract | post_pubmed_rss.py:107 | label and title line without abstract are joined by one newline |
| Format.AssembleWithAbstract | post_pubmed_rss.py:105 | with an abstract, the label line, title line and abstract are joined by newlines and nothing is stripped from inside |
| Format.AssembleLayout | post_pubmed_rss.py:104-107 | the message is its present lines joined by newlines; an empty title line between label and abstract stays an empty line |
| Format.MessageLayout | post_pubmed_rss.py:97-107 | the message of an item, line by line, in terms of its title line and truncated abstract |
| Format.EmptyMessage | post_pubmed_rss.py:97-107 | the message is empty exactly when label, title, link and abstract line are all empty |
| Reconcile.Reverse | post_pubmed_rss.py:92 | `reversed` keeps the length |
| Reconcile.ReverseAt | post_pubmed_rss.py:92 | position `k` of the reversal holds position `n-1-k` of the feed |
| Reconcile.ReverseMultiset | post_pubmed_rss.py:92 | reversal is a permutation |
| Reconcile.ReverseAppend | post_pubmed_rss.py:92 | the reversal of `a + b` is the reversal of `b` followed by that of `a` |
| Reconcile.Unseen | post_pubmed_rss.py:90-94 | the filter keeps at most as many items as it is given |
| Reconcile.UnseenMembers | post_pubmed_rss.py:93 | an item is kept exactly when it is in the list and its id is not posted |
| Reconcile.UnseenCount | post_pubmed_rss.py:90-94 | the filter keeps every occurrence of an item with an unposted id and none of a posted one |
| Reconcile.UnseenAppend | post_pubmed_rss.py:90-94 | filtering distributes over concatenation |
| Reconcile.UnseenReverse | post_pubmed_rss.py:90-94 | filtering the reversed feed is reversing the filtered feed |
| Reconcile.UnseenTwice | post_pubmed_rss.py:93 | filtering by one set and then another is filtering by their union |
| Reconcile.UnseenAllSeen | post_pubmed_rss.py:93 | nothing is kept when every id is posted |
| Reconcile.UnseenNoneSeen | post_pubmed_rss.py:93 | everything is kept when no id is posted |
| Reconcile.NewItems | post_pubmed_rss.py:90-94 | an item is new exactly when it is in the feed and its id is not posted, and there are never more new items than items |
| Reconcile.NewItemsOldestFirst | post_pubmed_rss.py:89-94 | the new items are the unseen items of the feed in reverse feed order (oldest first), the whole reversed feed when nothing was posted from it |
| Reconcile.NewItemsCount | post_pubmed_rss.py:90-94 | every occurrence of an unseen item is delivered, duplicates of one id included, since the filter is computed before the loop adds ids |
| Reconcile.IdSet | post_pubmed_rss.py:83-84 | the id of every item is in the set |
| Reconcile.IdSetAppend | post_pubmed_rss.py:84 | adding an item adds exactly its id |
| Reconcile.IdSetMembers | post_pubmed_rss.py:83-84 | an id is in the set exactly when some item carries it |
| Reconcile.PrimedSetEmpty | post_pubmed_rss.py:82-85 | the primed set is empty exactly when the feed gave no items |
| Reconcile.RetryAfterFailure | post_pubmed_rss.py:96-111 | after the first `k` new items were posted, the next run offers the remaining new items except those whose id was posted |
| Reconcile.UndeliveredStayUnposted | post_pubmed_rss.py:96-111 | after a failure at position `k`, a later new item whose id was not posted before it is absent from the saved set and offered again |
| Reconcile.RerunAfterSuccess | post_pubmed_rss.py:90-113 | re-running on the same feed after a fully successful run sends nothing |
| Reconcile.RerunAfterPriming | post_pubmed_rss.py:82-94 | a run on the same feed after priming sends nothing |
| Reconcile.MessageOf | post_pubmed_rss.py:97-107 | the message function gives each item its formatted message, which has no outer whitespace |
| Reconcile.DeliveryLog | post_pubmed_rss.py:96-111 | the log of a delivery loop holds two events per posted item |
| Reconcile.DeliveryLogStep | post_pubmed_rss.py:108-110 | one more post adds its message and then a save of the set that now includes its id |
| Reconcile.PostStep | post_pubmed_rss.py:108-110 | posting item `k` adds its id to the set and its message and a save of the grown set to the log |
| Reconcile.DeliveryLogAt | post_pubmed_rss.py:108-110 | the k-th post sends the message of the k-th new item and is followed by a save of the start set plus the ids of the first k+1 items |
| Reconcile.Reconciler.constructor | post_pubmed_rss.py:59 | a run starts from the loaded set with nothing sent or saved |
| Reconcile.Reconciler.Prime | post_pubmed_rss.py:82-87 | priming adds every item id, saves once, sends nothing and reports the number of items |
| Reconcile.Reconciler.PostInOrder | post_pubmed_rss.py:96-111 | posts the new items in order until one fails; the set grows by the ids delivered, and each post is followed by a save |
| Reconcile.Reconciler.Deliver | post_pubmed_rss.py:90-113 | the steady-state run posts a prefix of the new items, stops at the first failure, and saves once more only when all succeeded |
| Reconcile.Reconciler.Run | post_pubmed_rss.py:54-113 | the label is stripped; `posted` only grows; an empty loaded set primes with exactly the item ids; any other set posts the new items oldest first, keeping the delivered prefix on failure |

## Left out

- Reading configuration from the environment (lines 51-56) is left out. The label and the abstract limit are parameters; `Run` strips the label as line 54 does. Parsing `ABSTRACT_CHARS` as an integer is not modelled.
- Fetching the feed over HTTP and parsing it with `feedparser` (lines 61-64) are left out. The run receives the parsed entry list.
- `requests.post` and `raise_for_status` (lines 22-24) are replaced by the `accept` oracle. Timeouts and HTTP status codes are not modelled.
- Reading and writing the JSON state file (lines 10-20) is left out. The loaded set is a constructor argument and each save is a `Saved` snapshot. Sorted serialisation, directory creation and a save that fails are not modelled.
- `time.sleep` and `print` (lines 86, 111, 114) are left out. The printed counts are the `Outcome` values.
- `html.unescape` (line 35) is the `unescape` parameter. Its entity table is not modelled.
- Only the five regular expressions of `sanitize_text` are modelled, each as its own scan. Regex matching in general is not.
- BreakTagLength and ParaCloseLength: case-insensitive matching is modelled as ASCII upper and lower case of `b`, `r` and `p`. No other code point folds to these letters.
- ReplaceBreakTags: its own contract gives only the length bound and the identity on text without `<`. What the substitution does is stated by `ReplaceBreakTagsKeeps` and `BreakTagReplaced`.
- ReplaceParaCloseTags: its own contract gives only the length bound and the identity on text without `<`. What the substitution does is stated by `ReplaceParaCloseTagsKeeps` and `ParaCloseReplaced`.
- StripTags: its own contract gives only the length bound and the identity on text without `<` or without `>`. What tag removal does is stated by `StripTagsKeeps`, `TagRemoved` and `StripTagsNoTag`.
- ReplaceCrLf: its own contract gives only the length bound and the identity on text without `\r`. What the replacement does is stated by `ReplaceCrLfKeeps`, `LineEndingsCrLf` and `VisibleReplaceCrLf`.
- NormalizeLineEndings: its own contract gives the characters of the result. What it does to each line ending is stated by `LineEndingsKeep`, `LineEndingsCrLf`, `LineEndingsCr` and `VisibleLineEndings`.
- CollapseNewlines: its own contract gives only the first character. What the collapse does is stated by `CollapseNewlinesKeep`, `CollapseNewlinesRun`, `CollapseNewlinesSound` and `VisibleCollapseNewlines`.
- CollapseBlanks: its own contract gives only the first character. What the collapse does is stated by `CollapseBlanksKeep`, `CollapseBlanksRun`, `CollapseBlanksChars`, `CollapseBlanksNoDoubleSpace` and `VisibleCollapseBlanks`.
- BreakTagReplaced, ParaCloseReplaced and TagRemoved: a `<` that starts no match of its pattern is copied by the scan's definition; no separate lemma restates that step.
- SanitizeKeepsVisible: stated for decoded text without `<`. With markup, tag removal also deletes visible characters, as `TagRemoved` states.

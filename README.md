# Product display of the recommendation app, in Dafny

This project models the product-display path of `components.py` in the
product recommendation chat app (a Streamlit front end over a retriever).
After a question, the retriever returns documents. The app turns the text of
the first document into a product record and shows it as a card. The
conversation log replays every stored turn. A user turn shows its text. Every
other turn shows the card of its documents.

The model has six modules:

- `Text` (`text.dfy`) defines the Python string operations the path relies on:
  - `str.strip()`, over the exact set of code points for which `str.isspace()` holds (U+FEFF is not one of them);
  - `str.lstrip(c)`;
  - `str.split(sep)`.
- `RecordParser` (`record_parser.dfy`) is the record parser of lines 61-68:
  - `ContainsDelimiter` and `FindDelimiter` are the search behind `": " in line` and `line.split(": ", 1)`;
  - `Parse` is the record as a function of the text;
  - `ParseProduct` is the loop that fills the dictionary, proved equal to `Parse`.
- `StockPolicy` (`stock_policy.dfy`) is the three-way stock choice of lines 79-99.
- `Display` (`display.dfy`) is the page:
  - every Streamlit call becomes one abstract block carrying its text;
  - a `Surface` object keeps the blocks written so far;
  - `Emit` appends one block.
- `CardRenderer` (`card_renderer.dfy`) is `display_product`, lines 51-119:
  - the methods `ShowRecord`, `ShowDetails`, `ShowMedia` and `ShowStock` write the blocks step by step, looking each field up just before the block that shows it;
  - `RenderCard` is the same card as a value, stage by stage;
  - `CutCard` is an independent reference: the full card cut where the first missing field is looked up;
  - a missing field (a `KeyError`) or an empty result list (an `IndexError` on `result[0]`) ends the card with a `Failed` outcome, with the earlier blocks left on the page.
- `ConversationLog` (`conversation_log.dfy`) is `display_conversation_log`, lines 38-48:
  - the loop over the stored turns;
  - its specification `Replay`, which stops at the first turn whose card fails, because the exception leaves the loop.

## Model

| member | source | states |
|---|---|---|
| Text.Strip | components.py:61 | The result is the input with only whitespace cut from its two ends, and it neither starts nor ends with whitespace. |
| Text.StripKeeps | components.py:67-68 | Every character that is not whitespace survives stripping, in its place. |
| Text.StripEmpty | components.py:61 | A line strips to "" exactly when every character in it is whitespace. |
| Text.StripUnchanged | components.py:67-68 | A string whose two ends are not whitespace is its own strip. |
| Text.LStripChar | components.py:67 | Only leading copies of the character are removed, and the result does not start with it. |
| Text.Split | components.py:61 | Splitting gives at least one piece, and no piece holds the separator. |
| Text.JoinSplit | components.py:61 | Joining the pieces of a split with the separator gives the original text back. |
| Text.SplitJoin | components.py:61 | Splitting a join of separator-free pieces gives those pieces back. |
| RecordParser.ContainsDelimiter | components.py:64 | A line holds the delimiter exactly when some suffix of it starts with ": ", as Python's `in` on strings. |
| RecordParser.FindDelimiter | components.py:64-66 | There is a result exactly when the line holds ": ", and it is the first occurrence. |
| RecordParser.CleanKey | components.py:67 | The key is the stripped key minus its leading U+FEFF characters, and only those. It neither starts with U+FEFF nor ends with whitespace. |
| RecordParser.ParseLine | components.py:64-68 | A line gives no entry exactly when it lacks ": ". A key it gives never starts with U+FEFF. |
| RecordParser.IsBlank | components.py:61 | `line.strip()` is empty exactly when every character of the line is whitespace. |
| RecordParser.NonBlankLines | components.py:61 | A line is kept exactly when it is an input line that is not blank, and there are at most as many kept lines as input lines. |
| RecordParser.NonBlankLinesConcat | components.py:61 | Filtering two joined line lists filters each in turn. With the one-line case, this makes the filter keep exactly the non-blank lines, in their order. |
| RecordParser.ParseProduct | components.py:61-68 | The loop builds exactly the record `Parse` gives for the text. |
| RecordParser.BlankLineHasNoDelimiter | components.py:61-65 | A blank line never holds ": ", so it gives no entry. |
| RecordParser.ParseLineSplitsAtFirst | components.py:66-68 | For `pre + ": " + post` with no ": " in `pre`, the key comes from `pre` and the value is `post` stripped. Later ": " stay in the value. |
| RecordParser.EmptyEntryIsIgnored | components.py:64-65 | A skipped line, anywhere, does not change the record. |
| RecordParser.EmptyEntriesGiveEmptyRecord | components.py:62-65 | Lines that are all skipped give the empty record. |
| RecordParser.KeysAreStoredKeys | components.py:62-68 | A key is in the record exactly when some entry stores under it. |
| RecordParser.LastEntryWins | components.py:68 | A key holds the value of the last entry storing under it. |
| RecordParser.BlankFilterIsRedundant | components.py:61-65 | Dropping blank lines first gives the same record as keeping them. |
| RecordParser.Parse | components.py:61-68 | The record of a text. It computes only; `ParseIsOverAllLines`, `ParsedKeys` and `ParsedValue` state what it holds, and `ParseProduct` is proved to build it. |
| RecordParser.ParseIsOverAllLines | components.py:61-68 | The record of a text is the record of all its lines, blank or not. |
| RecordParser.SkippedLineIsIgnored | components.py:64-65 | Removing a line without an entry leaves the record unchanged. |
| RecordParser.InsertedLineIsIgnored | components.py:61-65 | Inserting a blank or undelimited line anywhere in a text leaves its record unchanged. |
| RecordParser.UndelimitedTextGivesEmptyRecord | components.py:61-65 | A text none of whose lines holds ": " parses to the empty record, without error. |
| RecordParser.EmptyTextGivesEmptyRecord | components.py:61-62 | The empty text parses to the empty record. |
| RecordParser.KeysOfLines | components.py:62-68 | A key is in the record of some lines exactly when one of the lines defines it. |
| RecordParser.ParsedKeys | components.py:62-68 | The keys of a parsed record are exactly the cleaned keys of its delimited lines. |
| RecordParser.ParsedKeysHaveNoBom | components.py:67 | No key of a parsed record starts with U+FEFF, whichever line it came from. |
| RecordParser.ParsedValue | components.py:68 | A key's value is the stripped value of the last line defining that key. |
| RecordParser.LineRoundTrip | components.py:66-68 | Parsing `key + ": " + value` for a clean key without ": " and a clean value gives the pair back. A key may still hold ':' on its own. U+FEFF inside or at the end of the key, and anywhere in the value, is kept. |
| RecordParser.LeadingBomsDropped | components.py:67 | Any number of U+FEFF in front of the key is dropped, giving the same pair. |
| RecordParser.CleanKeyDropsBoms | components.py:67 | Cleaning U+FEFF repeated n times followed by a clean key gives back that key. |
| RecordParser.TwoLines | components.py:61-68 | A two-line text parses to the record its two entries build in order. |
| RecordParser.DuplicateKeyLastWins | components.py:68 | Two lines with the same key give a record holding only that key, with the second value. |
| StockPolicy.StockStatus | components.py:79 | The lookup has a result exactly when the record has `stock_status`, and the result is its value. |
| StockPolicy.Classify | components.py:80-99 | The outcomes are exclusive and cover every case. Low stock holds exactly when the status is the low sentinel. Out of stock holds exactly when it is not the low sentinel but is the none sentinel. No banner holds exactly when the status is absent or matches neither sentinel. |
| StockPolicy.StockOf | components.py:79-99 | Low stock exactly when the record's `stock_status` is the low sentinel. Out of stock exactly when it is the none sentinel and not the low one. No banner exactly when the field is absent or matches neither. |
| StockPolicy.StockIgnoresOtherFields | components.py:79-99 | Changing any field other than `stock_status` leaves the stock state unchanged. |
| StockPolicy.NoStatusNoBanner | components.py:79-99 | A record without the field, or with a value matching neither sentinel, gets no banner. |
| Display.Surface.Emit | components.py:70-119 | Writing a block appends exactly that block to the page. |
| CardRenderer.Get | components.py:73-119 | A field that is present reads as its value. |
| CardRenderer.Banner | components.py:79-99 | A card has at most one stock banner. |
| CardRenderer.FullCard | components.py:70-119 | The full card has eight blocks plus the banner, if any. |
| CardRenderer.FirstMissingIsFirst | components.py:73-116 | The search finds the first field missing in lookup order. Every field before it is present, and it finds none exactly when all are present. |
| CardRenderer.CutPoint | components.py:70-116 | A failed card keeps at least the lead-in and never the link. |
| CardRenderer.RenderCard | components.py:70-119 | The card always starts with the lead-in. It is shown exactly when the record has every required field. It fails only on a field the record lacks. |
| CardRenderer.DetailsCard | components.py:101-119 | From the specifications on, the card is shown exactly when the seven fields it reads are present, and fails only on a missing one. |
| CardRenderer.MediaCard | components.py:108-119 | From the image on, the card is shown exactly when `file_name`, `description` and `recommended_people` are present, and fails only on a missing one. |
| CardRenderer.CutCard | components.py:70-119 | The reference card is a prefix of the full card, holding at least the lead-in. It is the whole full card exactly when it is shown. |
| CardRenderer.CardOf | components.py:51-61 | The card fails for want of a document exactly when the result list is empty. Otherwise it starts with the lead-in. |
| CardRenderer.ShowStock | components.py:79-99 | Exactly the banner the stock policy chooses is written, and nothing else. |
| CardRenderer.ShowRecord | components.py:70-119 | The page gains exactly the card of the record, and the outcome is the card's. |
| CardRenderer.ShowDetails | components.py:101-119 | The page gains exactly the blocks from the specifications on, and the outcome is theirs. |
| CardRenderer.ShowMedia | components.py:108-119 | The page gains exactly the blocks from the image on, and the outcome is theirs. |
| CardRenderer.MediaMatches | components.py:108-119 | From the image on, the card is the tail of the full card, cut at the first missing field the image, description or recommendation read. |
| CardRenderer.DetailsMatches | components.py:101-119 | From the specifications on, the card is the tail of the full card, cut at the first missing field. |
| CardRenderer.RenderCardIsCutFullCard | components.py:70-119 | The card written equals the full card cut where the first missing field is looked up, with that field's failure. With no field missing, it is the full card, shown. |
| CardRenderer.CompleteCardIsFull | components.py:70-119 | A record with every required field shows the full card in its fixed order: lead-in, name/id/price, banner, specifications, image, description, heading, recommendation, link. |
| CardRenderer.RenderedIsPrefix | components.py:70-119 | Whatever happens, the page shows a prefix of the full card. |
| CardRenderer.DisplayProduct | components.py:51-119 | An empty result fails before writing anything. Otherwise the page gains the card of the first document's parsed text. |
| CardRenderer.ShownIffComplete | components.py:73-116 | The card is shown exactly when the record has every required field. Otherwise it fails on the first missing one in lookup order. |
| CardRenderer.TailAgrees | components.py:101-116 | The shown part of the tail depends only on fields already present. |
| CardRenderer.PrefixAgrees | components.py:70-116 | Up to the failure point, the full card of a record agrees with that of any extension with the same stock status. |
| CardRenderer.FailedCardIsPrefixOfCompletion | components.py:70-116 | A failed card starts with the lead-in and is a strict prefix of the full card of any extension of the record with the same stock status. |
| CardRenderer.FullCardBanners | components.py:79-99 | The full card holds exactly as many banners as the stock policy chose. |
| CardRenderer.FullCardOpensNoMessage | components.py:70-119 | No block of a card opens a chat message. |
| CardRenderer.AtMostOneBanner | components.py:79-99 | A card shows at most one stock banner, whether it completes or not. |
| CardRenderer.BannerFollowsPolicy | components.py:79-99 | In a complete card, each banner appears exactly when the stock policy chooses it. |
| CardRenderer.LinkIsFixed | components.py:119 | A complete card ends with the same link, whatever the record. |
| CardRenderer.EmptyRecordStopsAtName | components.py:70-74 | A record with no fields stops at the name lookup, after the lead-in. |
| CardRenderer.UndelimitedTextStopsAtName | components.py:61-74 | A document none of whose lines holds ": " shows only the lead-in and then fails on `name`. |
| ConversationLog.TurnOutput | components.py:43-48 | Every turn opens one chat message, of its own speaker. |
| ConversationLog.Replay | components.py:42-48 | The replay of a non-empty history opens with the chat message of its first turn, whatever happens later. |
| ConversationLog.FailureStops | components.py:42-48 | Once a prefix of the history fails, the later turns add nothing. |
| ConversationLog.ReplayStep | components.py:42-48 | After a prefix shown in full, the next turn adds its output and its outcome. |
| ConversationLog.DisplayTurn | components.py:43-48 | The page gains exactly the turn's output, and the outcome is the turn's. |
| ConversationLog.DisplayAnswer | components.py:46-48 | The page gains an assistant chat message holding the card of the turn's documents. |
| ConversationLog.DisplayConversationLog | components.py:42-48 | The page gains exactly the replay of the history, and the outcome is the replay's. |
| ConversationLog.ConcatWellFormed | components.py:42 | Joining two well-formed histories gives a well-formed history. |
| ConversationLog.ReplayConcat | components.py:42-48 | Replaying a history in two parts gives the same page as replaying it at once. The second part adds its output only when the first has not failed. |
| ConversationLog.ShownIffEveryTurnShown | components.py:42-48 | The replay completes exactly when every turn's output completes. |
| ConversationLog.SpeakersConcat | components.py:44-47 | The chat messages of two joined block lists are those of the first, then those of the second. |
| ConversationLog.CardOpensNoMessage | components.py:47-48 | A product card opens no chat message of its own. |
| ConversationLog.OneMessagePerTurn | components.py:43-48 | Each turn writes exactly one chat message, of its speaker. |
| ConversationLog.MessagesFollowTurns | components.py:42-48 | The replay writes one chat message per turn, in stored order and with the turn's speaker. It writes all of them when it completes, and otherwise a prefix of them. |
| ConversationLog.FailedReplayStopsAtTurn | components.py:42-48 | A failed replay stops at a turn k. Every turn before k is shown, the replay ends with turn k's failure, and its chat messages are exactly those of turns 0 to k. |
| ConversationLog.SpeakersStep | components.py:42-48 | After a prefix shown in full, the next turn adds its speaker's chat message. |

## Left out

- `display_app_title` and `display_initial_ai_message` (components.py:17-35) write constant text and hold no logic.
- The logger fetched at components.py:58 is never used.
- Streamlit rendering is reduced to abstract blocks with their payloads. Not modelled:
  - the HTML and CSS of the two banners and their icons;
  - the exact f-string layout of the name/price and specification blocks;
  - chat avatars, image width, `st.code` and `st.info` options and the button style.
- A `st.chat_message` container becomes a `ChatMessage` marker block. The blocks written inside it follow the marker; the nesting itself is not modelled.
- The page is append-only. Nothing in the modelled code removes or rewrites a block.
- The values of the `constants` module are not part of this model. The two stock sentinels are parameters. They are not assumed distinct: the low-stock comparison comes first, so it wins when they are equal.
- `st.session_state.messages` is passed in as a sequence and only read.
- A document is reduced to its `page_content`. Only the first document of a result is read, as in the code.
- An uncaught `KeyError` or `IndexError` becomes a `Failed` outcome that ends the card and the replay. What Streamlit shows for the exception afterwards is not modelled.
- ConversationLog.DisplayConversationLog: requires every stored turn to be well formed. A user turn must hold text and any other turn a list of documents. A history of another shape is not modelled.
- ConversationLog.DisplayTurn: requires a well-formed turn, for the same reason.
- ConversationLog.TurnOutput: requires a well-formed turn, for the same reason.

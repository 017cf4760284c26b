# comets-studio chat pipeline, in Dafny

This project models the core of comets-studio, a Next.js studio where a chat
with a language model produces React components that can be previewed and
deployed.

**The chat pipeline.**
- The chat route relays the model's deltas as newline-delimited records `{"content": …}`.
- The browser-side chat store reads those records back into the assistant message, one transport read at a time.
- On completion the store extracts the fenced code blocks.
- The chat screen and the message list split a message into prose and code parts.
- They decide which code part to open in the live preview.

**Smaller cores:**
- the AI service's provider and model table, its lazily made clients and its delta relay;
- the file tree built from a path→content record;
- the Vercel project builders and the deployment URL choice;
- the in-memory component marketplace;
- the message renderer's marker-stripping preprocessing;
- the environment check;
- the theme store;
- the greeting and tip choice.

**How the model is organised.** One module per source file:
- `CodeParser`, `ChatInterface`, `MessageItem`, `ChatStore`, `ChatRoute`, `AiService`;
- `FileTree`, `VercelDeploy`, `Marketplace`, `MessageRenderer`;
- `EnvCheck`, `ThemeStore`, `CometConfig`.

**Shared modules.**
- `Fence` is the fence expression ```` ```(\w+)?\n([\s\S]*?)``` ```` as a hand-written matcher with the `exec` semantics of a global regular expression. `CodeParser` and both copies of `parseMessage` share it.
- `Json` is the `JSON.stringify({content})` record writer and its reader (RFC 8259, section 7).
- `Utf8` and `Base64` are the encoding behind `Buffer.from(s, 'utf-8').toString('base64')` (RFC 3629; RFC 4648, section 4).
- `Streams` is a `ReadableStream` controller as a class holding a chunk list and a state.
- `Strings` holds JavaScript `trim`, `toLowerCase`, `split` and radix formatting.
- `Pipeline` connects the route to the store.

**Form follows the source.**
- Loops over regular-expression matches are methods with loop invariants (`ExtractCodeBlocks`, both `ParseMessage`s, the store's read loop, the relay loops, `BuildTree`). Each is proved equal to a specification function, and the properties are lemmas about that function.
- Stores and services whose fields change are classes with `modifies` clauses: `ChatStore.Store`, `AiService.Service`, `Marketplace.MarketplaceService`, `ThemeStore.Store` and the root element.
- Pure code is functions and lemmas.

**Inputs.** Clocks, random ids, `fetch` answers, the upstream model's deltas and the environment are all parameters.

**Headline results.**
- `Pipeline.RoundTrip`: when the transport cuts the relay's bytes only at line ends, the store ends with exactly the relayed text, the non-empty deltas joined in order.
- `Pipeline.SplitRecordIsLost`: a record cut across two reads is silently dropped.
- `ChatInterface.CodePartRewraps`: every code part re-wraps into exactly one block, so the preview decision is well defined.
- `MessageItem.BothCopiesAgree`: the two `parseMessage` copies agree on every input.
- `FileTree.BuildTree`: when no path is a segment-prefix of another, every path reaches its file.

## Model

| member | source | states |
|---|---|---|
| Fence.FindMarkerFirst | lib/code-parser.ts:19 | the lazy body `[\s\S]*?` ends at the first three backticks at or after its start, and there is none only when no marker follows |
| Fence.WordRunEndMax | lib/code-parser.ts:19 | the greedy tag `(\w+)?` takes the longest run of word characters and cannot be extended |
| Fence.MatchAtShape | lib/code-parser.ts:19 | a match covers exactly its fence text, its tag is word characters only, and its body holds no three backticks |
| Fence.NextMatchLeftmost | lib/code-parser.ts:22 | `exec` from `lastIndex` returns a genuine match with no match starting between `lastIndex` and it, and returns none only when no match starts anywhere after `lastIndex` |
| Fence.MatchesFromSound | lib/code-parser.ts:22 | the matches the scanning loop visits are ordered and non-overlapping, each is a genuine match, and the gaps woven with the fence texts rebuild the input |
| Fence.MatchesFromComplete | lib/code-parser.ts:22 | the loop skips nothing: every match that lies outside the spans already taken is among the visited ones |
| Fence.NoClosingMarkerNoMatch | lib/code-parser.ts:19 | without a second marker at least four characters after an opening one, nothing matches |
| Fence.FenceEndsInMarker | lib/code-parser.ts:19 | every fence text starts and ends with three backticks |
| Fence.MatchAtSuffix | lib/code-parser.ts:19 | whether and how the expression matches at a position depends only on the text from that position on |
| Fence.NextMatchSuffix | lib/code-parser.ts:22 | `exec` on a suffix finds the same match, shifted by the dropped prefix |
| Fence.NextMatchSkip | lib/code-parser.ts:22 | where no match starts between two positions, `exec` from either finds the same match |
| Fence.NoBacktickNoMatch | lib/code-parser.ts:19 | no match starts among characters that hold no backtick |
| Fence.CollectSuffix | lib/code-parser.ts:22-38 | what a match loop collects depends only on the text from `lastIndex` on |
| Fence.CollectLeadingFence | lib/code-parser.ts:22-38 | a closed fence at the front of the text is the first match, with nothing skipped, and the rest is collected on its own |
| Fence.CollectNoMatch | lib/code-parser.ts:22-38 | text with no match is handed to the loop's tail step as a whole |
| CodeParser.ExtractCodeBlocks | lib/code-parser.ts:15-41 | the `while (exec)` loop returns exactly the blocks of the specification `CodeBlocks`, one per supported fence, in order |
| CodeParser.BlockOfFence | lib/code-parser.ts:23-36 | a fence gives a block iff its language is supported; the code is the trimmed body; the language is normalised; the component flag is the detector's verdict; a name is set only for components; an untagged fence is typescript |
| CodeParser.ProsePrefix | lib/code-parser.ts:19-38 | prose without a backtick in front of the text adds no block and changes no later block |
| CodeParser.LeadingFence | lib/code-parser.ts:19-38 | a closed fence in front contributes its own block (or none), and the rest of the text is parsed independently |
| CodeParser.UnsupportedBlock | lib/code-parser.ts:27 | a fence whose language is not whitelisted contributes no block |
| CodeParser.UnsupportedFenceSkipped | lib/code-parser.ts:27 | a closed fence in an unsupported language is skipped entirely, and what follows is parsed as if it were absent |
| CodeParser.UnsupportedTags | lib/code-parser.ts:82-85 | python, rust and bash are not on the whitelist |
| CodeParser.UntaggedFenceIsTypeScript | lib/code-parser.ts:23-24 | an untagged closed fence yields one typescript block holding the trimmed body, followed by the blocks of the rest |
| CodeParser.UnterminatedFence | lib/code-parser.ts:19-38 | a fence that is opened and never closed yields no block |
| CodeParser.MarkerPosition | lib/code-parser.ts:19 | in prose, three backticks and more prose, the backticks are the only place a marker starts |
| CodeParser.NoMatchNoBlock | lib/code-parser.ts:22-38 | text where the expression never matches has no blocks |
| CodeParser.NormalizeLanguageNames | lib/code-parser.ts:82-111 | every language name normalises to itself and is supported; ts and js map to typescript and javascript |
| CodeParser.LanguageCaseInsensitive | lib/code-parser.ts:82-111 | the whitelist and normalisation give the same answer for a tag and its lower-case form |
| CodeParser.PlainCodeIsNotComponent | lib/code-parser.ts:46-58 | code without `(`, `<`, `import` and `export` matches none of the six component patterns |
| CodeParser.DefaultFunctionIsExport | lib/code-parser.ts:50-65 | wherever `export default function Name` matches, the `export default function` component pattern matches too |
| CodeParser.DefaultFunctionIsComponent | lib/code-parser.ts:46-66 | code with a default-exported named function is detected as a component |
| CodeParser.NameAfterIsWord | lib/code-parser.ts:65-74 | a captured name is a non-empty run of word characters |
| CodeParser.FirstName | lib/code-parser.ts:65-74 | the position found is at or after the start and the name pattern matches there |
| CodeParser.FirstNameLeftmost | lib/code-parser.ts:65-74 | no position before the one found matches the name pattern |
| CodeParser.FirstNameNone | lib/code-parser.ts:65-74 | when nothing is found, the pattern matches at no position |
| CodeParser.ComponentNameIsWord | lib/code-parser.ts:63-77 | every extracted name is a non-empty identifier of word characters |
| CodeParser.DefaultFunctionNameWins | lib/code-parser.ts:65-66 | whenever `export default function X` matches anywhere, the name is the leftmost such X |
| CodeParser.ExportConstNameWins | lib/code-parser.ts:69-70 | without a default-exported function, the leftmost `export const X` names the component before any plain function |
| CodeParser.NoComponentName | lib/code-parser.ts:63-77 | there is no name iff none of the three name patterns matches anywhere |
| CodeParser.DefaultFunctionShape | lib/code-parser.ts:65 | where `export default function <name>` matches, the three keywords stand in order, separated by whitespace |
| CodeParser.DefaultExportNamed | lib/code-parser.ts:63-66 | `export default function <name>` followed by a non-word character names the component `<name>` and marks it as a component |
| CodeParser.FirstComponent | lib/code-parser.ts:126-135 | the index found is the first block flagged as a component, and there is none iff no block is |
| CodeParser.ShouldShowPlayground | lib/code-parser.ts:117-120 | the playground is shown iff some extracted block is a component |
| CodeParser.GetPrimaryCodeBlock | lib/code-parser.ts:126-135 | null iff there are no blocks; else the first component block, or the first block when no block is a component |
| ChatInterface.ParseMessage | components/chat/chat-interface.tsx:177-200 | the `while (exec)` loop returns exactly the specification `Parts` |
| ChatInterface.CollectCodeParts | components/chat/chat-interface.tsx:183-193 | each matched fence becomes one code part in order, with the raw untrimmed body and the tag or typescript |
| ChatInterface.CollectTexts | components/chat/chat-interface.tsx:183-197 | the text parts are exactly the non-empty gaps before, between and after the fences |
| ChatInterface.PartsAreFencesAndGaps | components/chat/chat-interface.tsx:177-200 | a message's code parts are its fences in order, and its text parts are the non-empty gaps |
| ChatInterface.CollectEmpty | components/chat/chat-interface.tsx:183-199 | the loop collects nothing iff there is no fence and no text after `lastIndex` |
| ChatInterface.NoFenceSingleText | components/chat/chat-interface.tsx:199 | without a complete fence, including the empty message, the result is one text part holding the whole input |
| ChatInterface.TextPartsNonEmpty | components/chat/chat-interface.tsx:184-199 | there is always a part, and a non-empty message never yields an empty text part |
| ChatInterface.CodePartBody | components/chat/chat-interface.tsx:189 | a code part's content never holds three backticks |
| ChatInterface.RewrapOneBlock | components/chat/chat-interface.tsx:123 | re-wrapping a fence body in a tsx fence gives exactly one tsx block of the trimmed body, flagged as a component exactly when that code is one |
| ChatInterface.CodePartRewraps | components/chat/chat-interface.tsx:123 | every code part of every message re-wraps into exactly one block |
| ChatInterface.RewrapComponent | components/chat/chat-interface.tsx:424 | the Live Preview button shows for a re-wrapped body exactly when its trimmed code is a component |
| ChatInterface.ComponentPartIsComponentCode | components/chat/chat-interface.tsx:122-123 | for a code part, "its re-wrap holds a component" is "its trimmed code is a component" |
| ChatInterface.HandleSendGuard | components/chat/chat-interface.tsx:141-151 | nothing is sent and the input is kept iff the input is blank or a reply streams; otherwise the input is cleared and its trimmed, non-blank text is sent |
| ChatInterface.FindIndex | components/chat/chat-interface.tsx:115 | `findIndex` returns an index whose element satisfies the test |
| ChatInterface.FindIndexFirst | components/chat/chat-interface.tsx:115 | no earlier element satisfies the test, and none at all does when the result is -1 |
| ChatInterface.FindLastIndex | components/chat/chat-interface.tsx:120 | the reversed `find` returns an element that satisfies the test |
| ChatInterface.FindLastIndexLast | components/chat/chat-interface.tsx:120 | no later element satisfies the test, and none does when nothing is found |
| ChatInterface.TemplatePreview | components/chat/chat-interface.tsx:110-117 | a lone template message previews its first code part, and leaves the preview alone when it has none |
| ChatInterface.ReplyPreview | components/chat/chat-interface.tsx:119-125 | otherwise, when the last finished assistant reply has a component part, the preview opens the first such part; the preview changes in no other way |
| ChatInterface.ExtraOllamaModels | components/chat/chat-interface.tsx:272 | the extra list is no longer than the fetched one |
| ChatInterface.ExtraOllamaModelsExact | components/chat/chat-interface.tsx:272 | a model is offered below the presets iff it was fetched and is not a preset |
| MessageItem.ParseMessage | components/chat/message-item.tsx:29-55 | the message list's copy of the loop computes exactly the chat screen's parts |
| MessageItem.BothCopiesAgree | components/chat/message-item.tsx:29-55 | the two `parseMessage` copies return the same parts on every input |
| MessageItem.PartsInOrder | components/chat/message-item.tsx:35-51 | the code parts are the fences in order, each with a non-empty language; text parts of a non-empty message are never empty |
| MessageItem.PropsEqualIgnoresIdAndProvider | components/chat/message-item.tsx:126-133 | a new id or provider alone never redraws the item; a change of content, streaming flag or role always does; the test is reflexive and symmetric |
| Json.EscapeNoControl | app/api/chat/route.ts:77 | an escaped string holds no control character |
| Json.RecordHasNoLineBreak | app/api/chat/route.ts:77 | a record holds no raw line feed, so a frame's only line feed is its last character |
| Json.ParseEscape | lib/stores/chat-store.ts:153 | reading back an escaped string and its closing quote gives the string and the rest of the text |
| Json.DecodeRecordRoundTrip | lib/stores/chat-store.ts:153-154 | the store's parser reads back exactly the content the relay wrote into a record |
| Streams.StreamController.Enqueue | app/api/chat/route.ts:77 | enqueueing appends one chunk and leaves the stream open |
| Streams.StreamController.Close | app/api/chat/route.ts:79 | closing adds no chunk and closes the stream |
| Streams.StreamController.Error | app/api/chat/route.ts:80 | erroring adds no chunk and errors the stream |
| Streams.FirstChoiceEmpty | app/api/chat/route.ts:87 | the reply is empty iff there is no first choice, it is absent, or it is empty; otherwise it is that choice's content |
| ChatRoute.ClientIPChoice | app/api/chat/route.ts:17-23 | the first comma-separated entry of x-forwarded-for, trimmed; else x-real-ip; else `unknown` |
| ChatRoute.SystemPromptOpening | app/api/chat/route.ts:39-57 | the prompt opens with the base text; the Artiste block follows it when Artiste mode is on; with neither option it is the base text alone |
| ChatRoute.SystemPromptClosing | app/api/chat/route.ts:55-57 | the prompt ends with the Québécois instruction iff the language is fr-QC |
| ChatRoute.RequestDefaults | app/api/chat/route.ts:59-67 | upstream gets exactly [system, user]; temperature falls back to 0.7 and max_tokens to 1000 when missing or zero and otherwise passes through; stream follows the request |
| ChatRoute.Relay | app/api/chat/route.ts:72-82 | the relay stream holds one frame per non-empty delta, in order, and is closed, or errored when the upstream throws |
| ChatRoute.FramesAreRecords | app/api/chat/route.ts:76-77 | each frame is `JSON.stringify({content}) + '\n'` of one non-empty delta, with one frame per such delta |
| ChatRoute.NonStreamingReply | app/api/chat/route.ts:86-111 | a throwing completion gives the error response; otherwise the reply keeps a posted chat id or makes a `chat-` one and holds the request message as user, then the answer; a log is written only when no chat id was posted |
| AiService.ResolveTable | lib/ai-service.ts:86-117 | perplexity, openai and claude get their clients and default models, with claude on the OpenAI client; every other provider, and none, gets DeepSeek; a non-empty model option wins; 0.7, 4096 and streaming are the defaults for absent options, and given values, 0 and false included, pass through unchanged |
| AiService.RelayDeltas | lib/ai-service.ts:130-144 | the returned stream holds the non-empty deltas in order and is closed, or errored when the upstream throws |
| AiService.FragmentsAreDeltas | lib/ai-service.ts:133-138 | what passes is deltas unchanged, empty and missing ones dropped, none added |
| AiService.GenerationMessagesShape | lib/ai-service.ts:155-175 | exactly [system, user = prompt]; the system text gains the Project Context section only when a non-empty context is given |
| AiService.OneShotRequests | lib/ai-service.ts:186-269 | the refactor, test and review requests go to DeepSeek without streaming, with their fixed temperature, token and model fallbacks |
| AiService.Service.constructor | lib/ai-service.ts:41-47 | a new service holds no client |
| AiService.Service.GetDeepSeekClient | lib/ai-service.ts:49-58 | the DeepSeek client is made on first use, with its base URL, and the same client is returned every later time |
| AiService.Service.GetOpenAIClient | lib/ai-service.ts:60-66 | the OpenAI client is made on first use and reused after |
| AiService.Service.GetPerplexityClient | lib/ai-service.ts:68-77 | the Perplexity client is made on first use, with its base URL, and reused after |
| AiService.Service.ClientFor | lib/ai-service.ts:96-116 | the getter for the chosen client kind is used; the other clients are untouched; a client is constructed only when none was kept |
| AiService.Service.StreamChatCompletion | lib/ai-service.ts:82-145 | the request is the provider table's resolution; the resolved kind's kept client is reused, or a new one is built, stored and counted only when none was kept; the other clients are untouched; with streaming the stream relays the non-empty deltas, and without it the stream errors with nothing sent |
| AiService.Service.StreamCodeGeneration | lib/ai-service.ts:150-176 | the generation messages go through `streamChatCompletion` with the caller's options: the same client reuse, client count and stream outcome |
| AiService.Service.RefactorCode | lib/ai-service.ts:181-206 | the refactor request goes to the DeepSeek client, which is reused when kept and otherwise built with its base URL and counted; the other clients are untouched; the reply is the first choice's content or empty |
| AiService.Service.GenerateTests | lib/ai-service.ts:211-236 | the test request goes to the DeepSeek client, which is reused when kept and otherwise built with its base URL and counted; the other clients are untouched; the reply is the first choice's content or empty |
| AiService.Service.AnalyzeCode | lib/ai-service.ts:241-272 | the review request goes to the DeepSeek client, which is reused when kept and otherwise built with its base URL and counted; the other clients are untouched; the reply is the first choice's content or empty |
| AiService.ClientsAreKept | lib/ai-service.ts:49-58 | asking twice for a client constructs it once and returns the same client both times |
| ChatStore.FindSessionFirst | lib/stores/chat-store.ts:85 | `find` returns the first session with the id, and finds one iff some session has it |
| ChatStore.WithoutSessionSpec | lib/stores/chat-store.ts:91 | deleting keeps exactly the sessions with another id; an unknown id changes nothing |
| ChatStore.WithoutSessionDistinct | lib/stores/chat-store.ts:91 | deleting keeps the session ids distinct |
| ChatStore.RetitleSpec | lib/stores/chat-store.ts:101 | renaming keeps every session in place with its id and messages; only the sessions with that id change; ids stay distinct; an unknown id changes nothing |
| ChatStore.PrependFresh | lib/stores/chat-store.ts:78 | a new session with a fresh id keeps the ids distinct |
| ChatStore.WithoutMessageSpec | lib/stores/chat-store.ts:199 | deleting a message keeps exactly the others; an unknown id changes nothing |
| ChatStore.SetContentTwice | lib/stores/chat-store.ts:156-163 | a later text update of the reply replaces an earlier one |
| ChatStore.FailedOverwrites | lib/stores/chat-store.ts:184-193 | the error text replaces whatever had been streamed |
| ChatStore.StreamStep | lib/stores/chat-store.ts:145-154 | one more read extends the text by the content of that read's parsed lines |
| ChatStore.UnparsedStreamIsEmpty | lib/stores/chat-store.ts:151-166 | when no line parses, the text stays empty |
| ChatStore.Codes | lib/stores/chat-store.ts:171 | one code string per extracted block |
| ChatStore.ExchangeOutcome | lib/stores/chat-store.ts:110-194 | with fresh ids the messages end as the earlier ones, the user message and the reply; on success the reply holds the streamed text and its blocks' code; on any failure it holds the error text; streaming is over either way |
| ChatStore.Store.constructor | lib/stores/chat-store.ts:67-73 | no session, not streaming, deepseek with deepseek-chat at 0.7 |
| ChatStore.Store.CreateSession | lib/stores/chat-store.ts:75-82 | the new session goes first in the list, becomes current, and its id is returned; nothing else changes |
| ChatStore.Store.LoadSession | lib/stores/chat-store.ts:84-87 | the current session changes only to a session found with that id; nothing else changes |
| ChatStore.Store.DeleteSession | lib/stores/chat-store.ts:89-97 | the session is removed; if it was current, the first remaining one or none becomes current; otherwise the current one stays |
| ChatStore.Store.UpdateSessionTitle | lib/stores/chat-store.ts:99-104 | the title changes in the list and, when it is that session, in the current one |
| ChatStore.Store.FoldLines | lib/stores/chat-store.ts:149-167 | each line that parses extends the text and rewrites the reply; lines that do not parse are skipped |
| ChatStore.Store.ReadResponse | lib/stores/chat-store.ts:143-169 | the read loop's text is the fold of all reads' lines, and the reply holds it |
| ChatStore.Store.SendMessage | lib/stores/chat-store.ts:106-195 | a session is made when none is current; the user message and the reply are appended; the reply ends with the outcome of `ExchangeOutcome`; the streaming flags end cleared; the request body carries the store's provider, model and temperature |
| ChatStore.Store.StopStreaming | lib/stores/chat-store.ts:197 | only the streaming flags are reset; no session or message changes |
| ChatStore.Store.SetProvider | lib/stores/chat-store.ts:200 | only the provider of later requests changes |
| ChatStore.Store.SetModel | lib/stores/chat-store.ts:201 | only the model of later requests changes |
| ChatStore.Store.SetTemperature | lib/stores/chat-store.ts:202 | only the temperature of later requests changes |
| ChatStore.Store.ClearMessages | lib/stores/chat-store.ts:198 | a current session loses its messages; none stays none |
| ChatStore.Store.DeleteMessage | lib/stores/chat-store.ts:199 | the message is removed from the current session only |
| Pipeline.RecordNotBlank | lib/stores/chat-store.ts:149 | a record line is never dropped as blank |
| Pipeline.FramesTextLines | lib/stores/chat-store.ts:149 | the non-blank lines of back-to-back frames are their records |
| Pipeline.RecordsText | lib/stores/chat-store.ts:151-154 | folding the records gives back their fragments, joined |
| Pipeline.WholeFramesRead | lib/stores/chat-store.ts:148-154 | a read holding whole frames adds exactly their fragments |
| Pipeline.WholeFramesStream | lib/stores/chat-store.ts:144-168 | reads of whole frames leave the store with all fragments, joined in order |
| Pipeline.RelayBytes | app/api/chat/route.ts:75-78 | the relay's chunks, back to back, are the frames of its fragments |
| Pipeline.GroupReadsCarryRelay | lib/stores/chat-store.ts:145-148 | reads that group the fragments carry, together, exactly the relay's bytes |
| Pipeline.RoundTrip | lib/stores/chat-store.ts:141-176 | when reads cut the relay's bytes only at line ends, the store's text is the non-empty deltas joined in order, and a successful reply holds it |
| Pipeline.OneReadPerChunk | lib/stores/chat-store.ts:144-168 | when every relayed chunk arrives as one read, the store gets the relayed text |
| Pipeline.LineWithoutRecord | lib/stores/chat-store.ts:152-165 | a read holding one line that is not a record, with or without its line feed, adds nothing |
| Pipeline.TwoReads | lib/stores/chat-store.ts:144-154 | two reads add the text of the first, then that of the second |
| Pipeline.CutRecordIsLost | lib/stores/chat-store.ts:148-166 | two reads of which neither holds a whole record add nothing |
| Pipeline.SplitRecordIsLost | lib/stores/chat-store.ts:148-166 | the frame of "hi" cut into two reads is lost: the store's text stays empty |
| Strings.WsRunEnd | lib/code-parser.ts:24 | a greedy `\s*` run: all whitespace, and stopped by a non-whitespace character or the end |
| Strings.TrimStart | lib/code-parser.ts:24 | `trimStart` drops the longest all-whitespace prefix |
| Strings.TrimEnd | lib/code-parser.ts:24 | `trimEnd` drops the longest all-whitespace suffix |
| Strings.TrimIsTrimmed | lib/code-parser.ts:24 | `trim` leaves no whitespace at either end, and is empty iff the input is all whitespace |
| Strings.TrimAppendWhitespace | lib/code-parser.ts:24 | trailing whitespace, such as the line feed before a closing fence, does not survive `trim` |
| Strings.LowerIdempotent | lib/code-parser.ts:84 | lowering twice is lowering once |
| Strings.Split | lib/stores/chat-store.ts:149 | `split` gives at least one piece and no piece holds the separator |
| Strings.SplitAfterLine | lib/stores/chat-store.ts:149 | a separator-free line followed by the separator splits off as one piece |
| Strings.JoinSplit | components/file-tree.tsx:31-36 | joining the pieces of a split gives the string back |
| Strings.SplitJoin | components/file-tree.tsx:31-36 | splitting a join of separator-free pieces gives the pieces back |
| Strings.FromToRadix | lib/vercel-deploy.ts:158 | `toString(36)` is injective: the digits read back to the number, with no leading zero |
| Utf8.DecodeEncode | lib/vercel-deploy.ts:83 | decoding the UTF-8 bytes of every string gives the string back |
| Base64.Encode | lib/vercel-deploy.ts:83 | the encoding has four characters per started group of three bytes |
| Base64.DecodeEncode | lib/vercel-deploy.ts:83 | decoding undoes base 64 encoding for every byte sequence |
| Base64.ToBase64Decodes | lib/vercel-deploy.ts:82-84 | `toBase64` loses nothing: the text reads back from it |
| FileTree.FindName | components/file-tree.tsx:38 | `find` by name returns the first node with that name, and -1 iff none has it |
| FileTree.NewNode | components/file-tree.tsx:40-46 | a pushed node carries its segment and joined path; for the last segment it is a file with the content, otherwise an empty folder |
| FileTree.PlaceUnique | components/file-tree.tsx:38-48 | reusing an existing sibling keeps the names unique at every level |
| FileTree.PlaceFresh | components/file-tree.tsx:34-53 | inserting a path that is no segment-prefix of another keeps the tree mirroring the path set, and the path reaches a file with its content |
| FileTree.PlaceKeeps | components/file-tree.tsx:30-54 | inserting a fresh path leaves every file already reachable where it was |
| FileTree.SortRoot | components/file-tree.tsx:56-59 | the top level is ordered with folders first and then by name, and is a permutation of the unsorted level |
| FileTree.SortUnique | components/file-tree.tsx:56-59 | sorting a level with unique names keeps them unique |
| FileTree.Permuted | components/file-tree.tsx:56-59 | reordering the top level keeps what every path reaches |
| FileTree.BuildTree | components/file-tree.tsx:27-60 | names are unique at every level and the top level is sorted; when no path is a segment-prefix of another, every path reaches a file with its content, and every node is a file at an entry's path with that entry's content or a folder above one, so the tree holds exactly the entries |
| FileTree.Select | components/file-tree.tsx:136 | a click reports `(path, content)` iff the node is a file with content |
| FileTree.BuiltFileSelects | components/file-tree.tsx:96-136 | a file built from an entry reports the entry's own path and text and is active on that path |
| VercelDeploy.BuildProjectFilesRaw | lib/vercel-deploy.ts:97-109 | nine entries, with `app/page.tsx` holding the code |
| VercelDeploy.RawOnlyPageVaries | lib/vercel-deploy.ts:97-109 | every entry but the page is the same for all inputs |
| VercelDeploy.EncodeAll | lib/vercel-deploy.ts:93 | one encoded file per raw file, with its name and the base 64 of its UTF-8 bytes |
| VercelDeploy.BuildProjectFiles | lib/vercel-deploy.ts:90-94 | nine files: the raw list for the trimmed code, each file encoded |
| VercelDeploy.PageIsTrimmedCode | lib/vercel-deploy.ts:90-94 | the deployed page is the trimmed code, recoverable from its payload |
| VercelDeploy.WithReplitSpec | lib/vercel-deploy.ts:122-125 | the spread keeps every template file, forces the `.replit` value, keeps the keys distinct, and adds `.replit` last only when it was absent |
| VercelDeploy.TemplateExport | lib/vercel-deploy.ts:122-125 | every exported file holds its template text, except `.replit`, which is always the fixed configuration; each path appears once |
| VercelDeploy.TemplateDeployMatchesExport | lib/vercel-deploy.ts:112-119 | the deployed template list has the export's names in the same order, each encoded |
| VercelDeploy.ProjectName | lib/vercel-deploy.ts:158 | a given name is kept; otherwise the name is `comets-` and the clock in base 36 |
| VercelDeploy.PrepareDeployment | lib/vercel-deploy.ts:153-176 | a missing or empty token fails with its message before any request; otherwise the request carries `Bearer <token>`, the files and the name |
| VercelDeploy.DeploymentUrl | lib/vercel-deploy.ts:184-188 | the reported URL always starts with http |
| VercelDeploy.UrlChoice | lib/vercel-deploy.ts:184-188 | `https://` and the first alias; else the deployment URL, prefixed with `https://` unless it starts with http; else `https://<name>.vercel.app` |
| VercelDeploy.ReadDeployment | lib/vercel-deploy.ts:178-191 | a non-OK answer fails with the API's message or `Vercel API error: <status>`; an OK one gives an http URL and the deployment id |
| VercelDeploy.DeployFiles | lib/vercel-deploy.ts:149-192 | without a token the deployment fails with the token message |
| VercelDeploy.DeployedPage | lib/vercel-deploy.ts:133-138 | a code deployment's request carries the trimmed code as its page |
| Marketplace.Select | lib/marketplace-service.ts:246-267 | the filters only narrow: the result is a subsequence of the catalogue, in catalogue order, holding each matching component as often as the catalogue does and no other; without a filter, everything in order |
| Marketplace.Insert | lib/marketplace-service.ts:270-285 | inserting into a descending list keeps it descending and adds exactly the element |
| Marketplace.InsertStable | lib/marketplace-service.ts:270-285 | the inserted element goes ahead of the elements with its key, and the elements of every key keep their order |
| Marketplace.SortDesc | lib/marketplace-service.ts:270-285 | the result is descending by the chosen key, a permutation of the input, and stable: the elements with any one key value keep their input order |
| Marketplace.Query | lib/marketplace-service.ts:243-288 | the result is a permutation of the filtered list; sorted when asked, with components of equal key in catalogue order; otherwise in catalogue order |
| Marketplace.Slice | lib/marketplace-service.ts:362 | `slice(0, limit)` is a prefix of at most `limit` elements, counting back from the end for a negative limit |
| Marketplace.FindIndex | lib/marketplace-service.ts:325 | `findIndex` returns the first component with the id, and -1 iff none has it |
| Marketplace.DeleteRemovesId | lib/marketplace-service.ts:340-346 | with unique ids, the splice leaves no component with that id |
| Marketplace.Merge | lib/marketplace-service.ts:328-332 | every field the update names is replaced, the others are kept, and the update time is the clock |
| Marketplace.CustomId | lib/marketplace-service.ts:312 | a new id starts with `custom-` |
| Marketplace.MarketplaceService.constructor | lib/marketplace-service.ts:236-238 | the catalogue starts as the built-ins and no custom components |
| Marketplace.MarketplaceService.GetComponents | lib/marketplace-service.ts:243-288 | exactly the catalogue components that match the filter, each as often as in the filtered list; sorted descending when asked, ties in catalogue order; in catalogue order otherwise |
| Marketplace.MarketplaceService.GetComponent | lib/marketplace-service.ts:293-297 | the first component with the id, built-ins before custom ones; none iff no component has the id |
| Marketplace.MarketplaceService.AddComponent | lib/marketplace-service.ts:309-319 | exactly one component with a `custom-` id is appended to the custom list and returned; the built-ins are untouched |
| Marketplace.MarketplaceService.UpdateComponent | lib/marketplace-service.ts:324-335 | only the first custom component with the id is merged and returned; an unknown or built-in id gives null and changes nothing |
| Marketplace.MarketplaceService.DeleteComponent | lib/marketplace-service.ts:340-346 | exactly the first custom component with the id is removed; otherwise false and nothing changes |
| Marketplace.MarketplaceService.IncrementDownloads | lib/marketplace-service.ts:351-356 | the component `getComponent` finds gains exactly one download; an unknown id changes nothing |
| Marketplace.MarketplaceService.GetPopular | lib/marketplace-service.ts:361-363 | a prefix of the list sorted by downloads, of exactly min(`limit`, catalogue size) components for a non-negative limit; the limit defaults to 6 |
| Marketplace.MarketplaceService.GetRecent | lib/marketplace-service.ts:368-370 | a prefix of the list sorted by creation time, of exactly min(`limit`, catalogue size) components for a non-negative limit; the limit defaults to 6 |
| Marketplace.MarketplaceService.Search | lib/marketplace-service.ts:375-377 | the matching components as a subsequence of the catalogue, in catalogue order and with their duplicates; an empty query keeps the whole catalogue |
| Marketplace.UnfilteredIsEverything | lib/marketplace-service.ts:244 | without a filter the built-ins come back first, then the custom components |
| MessageRenderer.Preprocess | components/message-renderer.tsx:6-41 | a string is returned unchanged; the array, row count, row lengths and non-array rows are kept |
| MessageRenderer.PreprocessedItems | components/message-renderer.tsx:15-38 | each string item becomes its cleaned form, trimmed and without blank-line triples; every other item is kept |
| MessageRenderer.CleanText | components/message-renderer.tsx:16-36 | the cleaned item is trimmed, has no three line feeds separated only by whitespace, is no longer than the item, and is the trim of the collapsed, marker-free text |
| MessageRenderer.WhitespaceItemEmpties | components/message-renderer.tsx:32-34 | a whitespace-only item becomes the empty string |
| MessageRenderer.MarkerAttrRemoved | components/message-renderer.tsx:18 | a `[V0_FILE]…:file="…"` reference not followed by a line feed is dropped |
| MessageRenderer.MarkerAttrLineRemoved | components/message-renderer.tsx:18 | such a reference is dropped together with the line feed after it |
| MessageRenderer.MarkerLineRemoved | components/message-renderer.tsx:19 | a `[V0_FILE]` line goes with its line feed, and one at the end goes to the end |
| MessageRenderer.MarkerFreeUntouched | components/message-renderer.tsx:18-19 | text without a marker is left alone by both marker patterns |
| MessageRenderer.MarkerCanReform | components/message-renderer.tsx:19 | one pass can leave a marker: cutting a marker line out of the middle of another marker joins its two halves |
| MessageRenderer.ShellRemoved | components/message-renderer.tsx:22 | a `... shell ...` placeholder is dropped |
| MessageRenderer.LooseShellRemoved | components/message-renderer.tsx:23 | a `....shell...` placeholder with any whitespace around `shell` is dropped |
| MessageRenderer.NoMatchUntouched | components/message-renderer.tsx:18-26 | where a pattern matches nowhere, its replacement leaves the text as it is |
| MessageRenderer.ReplaceShrinks | components/message-renderer.tsx:18-26 | a replacement no longer than any match never lengthens the text |
| MessageRenderer.KeepUnmatched | components/message-renderer.tsx:18-26 | a prefix where the pattern matches at no position is kept as it is |
| MessageRenderer.CollapseLeavesNoTriple | components/message-renderer.tsx:26 | after the collapse, no three line feeds are separated only by whitespace |
| MessageRenderer.DropLeadingBreaks | components/message-renderer.tsx:27 | only leading whitespace is removed, and no line feed is left in the leading whitespace |
| MessageRenderer.DropTrailingBreaks | components/message-renderer.tsx:28 | only trailing whitespace is removed |
| MessageRenderer.EdgesFacts | components/message-renderer.tsx:27-29 | the edge steps and `trim` together equal `trim` alone, and keep the text free of blank-line triples |
| EnvCheck.MissingFrom | lib/env-check.ts:30-33 | the filter keeps, in order, exactly the entries whose value is missing |
| EnvCheck.CheckRequiredEnvVars | lib/env-check.ts:8-36 | the report is a subsequence of the three required entries, so at most three |
| EnvCheck.CheckedExactly | lib/env-check.ts:30-35 | an entry is reported iff it is required and its value is unset or blank after trimming |
| EnvCheck.HasAllIffPresent | lib/env-check.ts:38-40 | the check passes iff all three values hold a non-whitespace character |
| EnvCheck.HasAllImpliesHasEnvVars | lib/env-check.ts:38-46 | the full check is stricter than the `hasEnvVars` flag |
| EnvCheck.WhitespaceValueDisagrees | lib/env-check.ts:32-45 | a whitespace-only value counts as set for the flag and as missing for the check |
| EnvCheck.FlagWithoutFullCheck | lib/env-check.ts:38-46 | with a whitespace-only API key, the flag may hold while the check fails |
| ThemeStore.Resolve | lib/stores/theme-store.ts:24-30 | light and dark resolve to themselves; system resolves to dark iff a window exists and prefers dark |
| ThemeStore.ClassesAfter | lib/stores/theme-store.ts:36-50 | after applying, `dark` is present iff the theme resolves to dark, and no other class changes |
| ThemeStore.ApplyIdempotent | lib/stores/theme-store.ts:36-50 | applying a theme twice is applying it once |
| ThemeStore.LastApplyWins | lib/stores/theme-store.ts:36-50 | only the last applied theme matters |
| ThemeStore.ApplyTheme | lib/stores/theme-store.ts:36-50 | without a document nothing changes; otherwise the class list becomes `ClassesAfter` |
| ThemeStore.Store.constructor | lib/stores/theme-store.ts:19 | the initial theme is system |
| ThemeStore.Store.SetTheme | lib/stores/theme-store.ts:20-23 | the theme is stored and applied, and `dark` is then present iff `resolvedTheme` is dark |
| CometConfig.CometGreeting | lib/comet-config.ts:149-154 | the greeting is one of the three |
| CometConfig.GreetingsDistinct | lib/comet-config.ts:151-153 | the three greetings differ |
| CometConfig.GreetingBands | lib/comet-config.ts:150-153 | hours 0–11 give morning, 12–17 afternoon and 18–23 evening, each exactly |
| CometConfig.CometTip | lib/comet-config.ts:156-165 | the tip is always one of the five |
| CometConfig.TipBands | lib/comet-config.ts:164 | each fifth of the random draw's range selects its own tip, so every tip can be shown |

## Left out

**Effects and runtime (not modelled):**
- `fetch` and the OpenAI SDK calls are replaced by inputs: the store's reads and response status, the upstream deltas, completion choices and the Vercel answer. The Vercel POST itself is not sent.
- Zustand `persist`/`devtools` middleware and localStorage are not modelled.
- `ReadableStream` timing and `for await` are not modelled. Streams are finite sequences.
- `Date.now`, `Math.random` and `toLocaleTimeString` are parameters.
- Marketplace.MarketplaceService.AddComponent: one `now` stands for the separate `createdAt` and `updatedAt` clock reads (lib/marketplace-service.ts:312-313), so the model makes them equal where the source can produce values a millisecond apart.
- ChatStore.Store.CreateSession: one `now`, through `ChatStore.NewSession`, stands for the separate `createdAt` and `updatedAt` clock reads (lib/stores/chat-store.ts:59-60), so the model makes them equal where the source can produce values a millisecond apart.
- ChatStore.Store.UpdateSessionTitle: one `now` stands for the two `Date.now()` reads, one for the session list and one for the current session (lib/stores/chat-store.ts:101-102). The model gives both copies the same `updatedAt`, which the source does not guarantee.
- ChatStore.Store.SendMessage: one `now` stands for the separate clock reads of the user message's timestamp, the reply's timestamp and the session's `updatedAt` (lib/stores/chat-store.ts:110, 111, 118), and for those of `createSession` when no session is current (lib/stores/chat-store.ts:59-60). The model therefore gives the user message, the reply and the session one shared time, where the source can produce values a millisecond apart.
- ChatRoute.NonStreaming: one `now` stands for the separate clock reads behind the two reply messages' ids and `createdAt` values (app/api/chat/route.ts:104-105), so the model gives both messages the same time where the source can produce values a millisecond apart.
- React rendering and UI state are left out: the folder expand/collapse, copy feedback and explain panel. Only the selection and preview rules are modelled.
- The GitHub service, the Ollama, explain, deploy, export and chat-management routes, and `lib/store/settings.ts` (setters only) are not part of this model.

**Parts of the source not modelled:**
- The chat route's authentication and entitlements checks are omitted. So is the body of the ownership and anonymous log writes: only whether a log is written, and that its failure does not fail the request, are modelled.
- The theme store's system-preference listener is left out. It subscribes to media-query events.
- The debounced project-file synchronizer and the store's `createSessionFromTemplate`/`updateMessageProjectFiles` are called by the chat screen but are not defined in lib/stores/chat-store.ts. They are not part of this model.

**Data representations:**
- Floating-point values (temperatures, ratings) are integers in tenths. `Date` strings in the marketplace are epoch integers.
- `Object.entries` order is taken as given: records are sequences of entries with distinct keys.
- The built-in component catalogue and the prompt, config and template texts are data. The catalogue is a constructor argument.
- `Marketplace.MarketplaceService.GetCategories` returns the fixed category table. It has no contract.
- TextDecoder details are not modelled: each read is already text.
- Non-string message items are modelled as integers.

**Weakened or approximated contracts:**
- Strings.Lower: `toLowerCase` is modelled for ASCII letters only. Every tag the fence expression captures is `\w`, so tags are unaffected. The marketplace search is affected; see the next two lines.
- Marketplace.Select: the search folds case for ASCII letters only. A query such as "É" finds a component named "école" in the source but not in the model.
- Marketplace.MarketplaceService.Search: inherits the ASCII-only case folding of `Marketplace.Select`.
- FileTree.SortRoot: `localeCompare` is modelled as code-point order on names.
- Marketplace.MarketplaceService.IncrementDownloads: components are values, so the aliasing of component objects is not modelled. The constructor's `[...BUILT_IN_COMPONENTS]` copies only the array, and `component.downloads++` mutates the shared object in place. In the source that change is seen by the module-level built-in list, by every other service instance, and by any component a caller already holds from `getComponents`. The model updates only this service's own list.
- Marketplace.SortDesc: the engine's `sort` (stable, as ECMAScript 2019 requires) is modelled as a stable insertion sort, descending. Its contract states the stability through `Marketplace.WithKey`. Keys are exact integers, so the comparator's floating-point subtraction is not modelled.
- Json.DecodeRecord: `JSON.parse` is modelled only for the relay's own record shape `{"content":"…"}`. Any other line counts as a parse failure, so its `content` is not appended.
- FileTree.BuildTree: the in-place descent through `current` is modelled on values by the recursive `Place`. A folder's `children` is never undefined. The reachability property is proved only when no path is a segment-prefix of another.
- MessageRenderer.Preprocess: marker absence after preprocessing is not claimed. One pass can re-form a marker (`MarkerCanReform`).
- ChatInterface.TemplatePreview: `find` picks the template message, but with exactly one message it is that message. The model takes the single-message case directly.
- ChatStore.Store.SendMessage: runs as one uninterrupted step. In the source every update after an `await` (lib/stores/chat-store.ts:156-163, 170-178, 182-191) rewrites whichever session is current at that moment. A `loadSession`, `createSession`, `clearMessages` or `deleteMessage` that runs while a reply streams therefore sends the reply's updates into another session, or loses them. The model does not capture these interleavings.
- AiService.Service.StreamChatCompletion: a `create` call that throws is not modelled. In the source the call itself then rejects and no stream is returned. `upstream` only describes a `create` that succeeded.
- ChatRoute.Relay: models only the relay's `start` callback. A streaming `create` call that throws (app/api/chat/route.ts:70) makes the route answer with the 500 JSON error (app/api/chat/route.ts:109-111); only `ChatRoute.NonStreaming` models that answer.
- Pipeline.RoundTrip: proved for reads that cut the relay's bytes only at line ends. For arbitrary cuts the text can lose records, as `Pipeline.SplitRecordIsLost` shows.

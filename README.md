# Messenger page bot: dispatcher, `ai` command and `getlink` command

The bot answers Facebook Messenger events for one page. Every inbound event
goes through `handleMessage`:

- attachments are remembered per sender in two caches (`imageCache` for
  images, `mediaCache` for images, videos, audio and files);
- the trimmed text is parsed into a command name and arguments;
- the name is looked up in a registry filled from the command modules.

Two commands are modelled here:

- `ai` forwards the prompt and the sender's conversation history to a chat
  service, then answers with the reply. The reply is split into chunks of
  at most 1900 characters, and text between asterisks is set in bold letters.
- `getlink` re-uploads a replied-to (or recently sent) attachment to Catbox
  and sends back the permanent link.

The model is a set of Dafny modules:

| module | file | what it holds |
|---|---|---|
| `Wrappers` | `wrappers.dfy` | `Option` |
| `Text` | `text.dfy` | JavaScript's `trim`, `split(' ')`, `join` and ASCII `toLowerCase` on code-point strings |
| `Events` | `events.dfy` | the shapes of a webhook event and of a Graph API attachment listing, and JavaScript truthiness of optional strings |
| `Caches` | `caches.dfy` | timestamped cache entries and the sweep that drops stale ones |
| `Dispatch` | `dispatch.dfy` | command registration, attachment caching, parsing and resolution of command lines, and the `Bot` class holding the registry, both caches and an outbox |
| `AiText` | `ai_text.dfy` | `formatBold`, `chunkMessage`, `parseResponse` and the image-URL match of `handleImageResponse` |
| `AiCommand` | `ai_command.dfy` | prompt building, the image-cache check, the tool-call rule, what the `ai` command sends, and the `History` class holding per-sender conversations |
| `GetLink` | `getlink.dfy` | attachment classification, the cache fallback, file extensions, the user-facing messages and `execute` |

External services are parameters of the model:

- Graph API lookups are a function from message id to a `GraphReply`.
- The chat service's answer is an `ApiReply`.
- The download and the Catbox upload are a `downloaded` flag and an `Upload` value.
- The clock is a `now` argument.
- Handler bodies, as seen by the dispatcher, are a `HandlerOutcome`.

Some behaviour of the code is modelled as written:

- The history cut in `ai`: when a sender's stored history is longer than 20
  turns, the map gets a fresh slice of the last 12. The new user and assistant
  turns are pushed onto the old array, which is detached from the map but is
  the one sent to the service. `Conversation` objects are held by reference,
  so the model has the same aliasing.
- `ai` takes the message id with `??`, so an empty `reply_to.mid` is kept and
  yields no lookup. `getlink` uses `||`, so an empty `reply_to.mid` falls
  through to `mid`.
- The cached image in `ai` is used only while it is strictly younger than
  300000 ms. The cached media in `getlink` is used up to and including
  300000 ms.

## Model

| member | source | states |
|---|---|---|
| Text.Trim | handles/handleMessage.js:54 | the trimmed text is a slice of the input with only white space before and after it; it is empty exactly when the input is all white space, and otherwise neither starts nor ends with white space |
| Text.Split | handles/handleMessage.js:102-104 | splitting on a single space gives at least one piece, no piece holds the separator, and joining the pieces with it gives the input back |
| Text.SplitJoin | handles/handleMessage.js:102-104 | splitting the join of separator-free pieces gives exactly those pieces (split and join are inverse) |
| Text.ConcatJoin | commands/ai.js:88 | concatenating strings in order is the same as `join('')`, joining with the empty separator |
| Text.ToLower | handles/handleMessage.js:23 | lower-casing keeps the length and maps each character on its own: `A`–`Z` to `a`–`z`, every other character unchanged |
| Caches.Sweep | handles/handleMessage.js:33-47 | a key survives exactly when its entry is at most the TTL old (an entry exactly TTL old survives), and surviving entries are unchanged |
| Dispatch.Keys | handles/handleMessage.js:20-24 | the registered keys are exactly the lower-cased string names of a descriptor, whether given singly or in an array; non-string names give none |
| Dispatch.AddNamesSpec | handles/handleMessage.js:21-25 | registering one module maps each of its lower-cased names to it and keeps every other key as it was |
| Dispatch.RegisterKeys | handles/handleMessage.js:16-25 | the registry's keys are exactly the old keys and the keys some loaded module claims |
| Dispatch.RegisterLastWins | handles/handleMessage.js:16-25 | a name is bound to the last module that claims it; a later module overwrites an earlier one |
| Dispatch.RegisterUnclaimed | handles/handleMessage.js:16-25 | a name no module claims keeps its previous binding, or stays unbound |
| Dispatch.RegisterWellFormed | handles/handleMessage.js:16-25 | after registration every key is lower case and is a name of the module it maps to |
| Dispatch.Bot.LoadCommands | handles/handleMessage.js:13-27 | the registry after loading is the old registry with the modules registered in order |
| Dispatch.Bot.SweepCaches | handles/handleMessage.js:32-48 | both caches lose exactly the entries more than `CACHE_TTL` old, and keep the rest unchanged |
| Dispatch.CacheImagesLast | handles/handleMessage.js:58-71 | after an event, the sender's image-cache entry is the last image attachment with a URL, stamped with the event time |
| Dispatch.CacheImagesNone | handles/handleMessage.js:58-71 | an event without an image attachment that has a URL leaves the image cache unchanged |
| Dispatch.CacheMediaLast | handles/handleMessage.js:58-94 | after an event, the sender's media-cache entry is the last image, video, audio or file attachment with a URL, with its type, stamped with the event time |
| Dispatch.CacheMediaNone | handles/handleMessage.js:58-94 | an event without such an attachment leaves the media cache unchanged |
| Dispatch.CacheImages | handles/handleMessage.js:58-71 | caching never adds, removes or changes another sender's image entry, and never drops the sender's own |
| Dispatch.CacheMedia | handles/handleMessage.js:58-94 | caching never adds, removes or changes another sender's media entry, and never drops the sender's own |
| Dispatch.Bot.CacheAttachments | handles/handleMessage.js:58-94 | the attachment loop leaves both caches as the attachment-caching functions describe |
| Dispatch.Body | handles/handleMessage.js:99-103 | the body is the text minus at most its first character, which is dropped exactly when it is `-` or `/` |
| Dispatch.Parse | handles/handleMessage.js:99-106 | the command name and the arguments contain no space, and joined with single spaces they give the text minus one leading `-` or `/` |
| Dispatch.ParseUnique | handles/handleMessage.js:99-106 | any space-free tokens that join back to the text's body are the parse of it |
| Dispatch.CacheFor | handles/handleMessage.js:113 | a handler gets the media cache exactly when its `name` is the string `getlink` |
| Dispatch.Resolve | handles/handleMessage.js:106-125 | the line is unknown exactly when neither its lower-cased name nor `ai` is registered; a registered name runs with the parsed arguments; otherwise `ai` runs with the whole line and the image cache |
| Dispatch.ResolvePrefixed | handles/handleMessage.js:99-125 | `-name args` or `/name args` runs the command registered under the lower-cased name with those arguments; otherwise `ai` runs with the whole line as its one argument and the image cache; otherwise the line is unknown |
| Dispatch.ResolveUnprefixed | handles/handleMessage.js:99-125 | a line with no prefix is resolved by its first word in the same way |
| Dispatch.ResolveCache | handles/handleMessage.js:113-122 | a resolved handler gets the media cache exactly when its name is `getlink`, and every other handler, including the `ai` fallback, gets the image cache |
| Dispatch.DispatchEffects | handles/handleMessage.js:108-129 | everything goes to the sender: a call of exactly the handler, arguments and cache the line resolves to, exactly when it resolves to one, followed by exactly one failure notice iff the handler threw, or else exactly one "Unknown command" notice |
| Dispatch.BlankTextIsSilent | handles/handleMessage.js:54-96 | text dispatch does nothing exactly when the text is missing or all white space |
| Dispatch.Bot.HandleMessage | handles/handleMessage.js:50-130 | an event without a sender id changes nothing; otherwise both caches are updated from the attachments and the text's effects are appended to the outbox |
| Dispatch.Bot.DispatchText | handles/handleMessage.js:98-129 | the outbox gains exactly the dispatch effects of the text |
| Dispatch.Bot.ResolveText | handles/handleMessage.js:99-125 | the prefix check, split, lower-casing and lookup give the route `Resolve` describes |
| AiText.Close | commands/ai.js:22 | finds the nearest closing asterisk after at least one character on the same line, as the lazy `\*(.+?)\*` does, and none when there is no such pair |
| AiText.BoldChar | commands/ai.js:23-30 | `a`–`z`, `A`–`Z` and `0`–`9` move, in order, to the bold letters and digits starting at U+1D41A, U+1D400 and U+1D7CE; any other character is kept |
| AiText.BoldCharSpec | commands/ai.js:23-30 | a character changes exactly when it is an ASCII letter or digit; the result lies in the Mathematical Alphanumeric Symbols block; distinct letters and digits stay distinct |
| AiText.BoldWord | commands/ai.js:22-31 | the inner text of a pair is mapped character by character through the bold mapping, keeping its length |
| AiText.FormatBoldPair | commands/ai.js:22-32 | a leading `*word*` becomes the bold form of the word, with both asterisks dropped, followed by the formatting of the rest; the word may itself start with `*`, so `**word**` leaves one star on each side of the bold word |
| AiText.FormatBoldCopies | commands/ai.js:22-32 | a character that opens no pair is copied unchanged |
| AiText.FormatBoldUnchanged | commands/ai.js:22-32 | formatting leaves the text unchanged exactly when it holds no `*x…*` pair |
| AiText.FormatBold | commands/ai.js:22-32 | formatting never lengthens the text (in code points) |
| AiText.CeilDiv | commands/ai.js:63 | the chunk count is the ceiling of length over size, and it is zero exactly for the empty text |
| AiText.ChunkMessage | commands/ai.js:62-65 | there are `ceil(length / size)` chunks |
| AiText.ChunkSizes | commands/ai.js:62-65 | there are `CeilDiv(length, size)` chunks, none for empty text; every chunk but the last has exactly the size, and the last is non-empty and at most the size |
| AiText.ChunksConcat | commands/ai.js:62-65 | the chunks concatenate back to the text |
| AiText.Captures | commands/ai.js:83-88 | no capture contains a double quote |
| AiText.CapturesRender | commands/ai.js:83-88 | rendering quote-free pieces as `marker"…"` matches and capturing gives the pieces back, in order |
| AiText.CapturesMissingChar | commands/ai.js:86-87 | text lacking a character of the marker has no match |
| AiText.Unescape | commands/ai.js:88 | unescaping never lengthens the text, adds no character but the newline, and leaves text without a backslash as it is |
| AiText.UnescapeEscape | commands/ai.js:88 | replacing each two-character `\n` by a newline undoes writing newlines as `\n` |
| AiText.ParseResponse | commands/ai.js:81-92 | the parsed text never contains a double quote |
| AiText.CapturesSkip | commands/ai.js:86 | text in which no match can start is passed over: the captures are those of what follows it |
| AiText.CapturesInterleave | commands/ai.js:83-86 | for either pattern, pieces rendered among any quote-free text are captured back exactly, in order |
| AiText.InlineHoldsNoResult | commands/ai.js:83-87 | inline fragments among quote-free text never produce a `"result":"…"` match |
| AiText.ParseResponseResultFirst | commands/ai.js:85-90 | when a `"result":"…"` match comes first after any quote-free text, the output is its unescaped capture followed by the unescaped `result` captures of the rest; `0:"…"` fragments are never read |
| AiText.ParseResponseResults | commands/ai.js:85-90 | `"result":"…"` matches among quote-free text give the in-order concatenation of their unescaped captures |
| AiText.ParseResponseInline | commands/ai.js:85-91 | `0:"…"` fragments among quote-free text give the in-order concatenation of their unescaped captures, and the empty text when there are none |
| AiText.FindImage | commands/ai.js:116 | returns the leftmost position where the image host is followed by at least one character other than white space, `"` or `)`, and none when there is no such position |
| AiText.ImageUrl | commands/ai.js:115-118 | a URL is found exactly when the image host is followed by at least one character other than white space, `"` or `)`; it is the leftmost such match, runs to the first white space, `"` or `)`, and starts with the host |
| AiText.StripNeverChanges | commands/ai.js:118 | stripping trailing `)` from a match, which holds no `)`, changes nothing |
| AiCommand.RawPrompt | commands/ai.js:134 | the prompt is the trimmed, space-joined arguments, or `Hello` when they are blank |
| AiCommand.Prompt | commands/ai.js:143 | the prompt gains `\n\nImage URL: <url>` exactly when an image URL was found, and is otherwise the raw prompt |
| AiCommand.FindImageSource | commands/ai.js:35-59 | the cached image is used exactly when it is strictly younger than 300000 ms; otherwise the message id is `reply_to.mid ?? mid`, and with none there is no URL |
| AiCommand.CachedImageExpiry | commands/ai.js:40 | an image cached exactly 300000 ms ago is no longer used |
| AiCommand.PromptMid | commands/ai.js:45 | the message id is `reply_to.mid` whenever it is present, even empty, and `mid` otherwise |
| AiCommand.ListedImageUrl | commands/ai.js:54 | the first listed item's image URL, else its file URL; nothing when no item is listed |
| AiCommand.NonEmpty | commands/ai.js:106 | dropping falsy snippets keeps exactly the non-empty ones; one snippet is kept exactly when it is not empty |
| AiCommand.NonEmptyAppend | commands/ai.js:106 | the filter works run by run, so the survivors keep their order and their repeats |
| AiCommand.Snippets | commands/ai.js:105-107 | the answer box wins; otherwise the non-empty organic snippets joined by blank lines (empty text when all are empty); otherwise the no-info notice |
| AiCommand.Outcome | commands/ai.js:99-108 | a honoured `generateImage` call is handled with the image notice; a honoured `browseWeb` call adds the browse text |
| AiCommand.SelectTool | commands/ai.js:95-112 | the result is unhandled exactly when no call is honoured; otherwise it is the outcome of the first honoured call |
| AiCommand.HandleToolCalls | commands/ai.js:95-112 | the loop returns the outcome of the first honoured call, and sends the notice only when that call generated an image |
| AiCommand.ReplyText | commands/ai.js:164-170 | no reply text exactly when a tool call was handled; otherwise the parsed body, followed by the browse text when there is one |
| AiCommand.Deliver | commands/ai.js:164-209 | at least one message is sent; an unreachable service gives exactly the error notice; a generated image gives exactly its notice; a reply holding an image URL gives exactly that image |
| AiCommand.DeliverFormatted | commands/ai.js:186-198 | a textual answer is sent as exactly the 1900-character slices of the framed and bold-formatted reply, ceil(length / 1900) of them, each 1 to 1900 characters, reading in order as that reply |
| AiCommand.DeliverErrorIff | commands/ai.js:164-209 | the error notice is sent exactly when the service is unreachable or its reply and browse text are both empty |
| AiCommand.AssistantTurns | commands/ai.js:168-175 | at most one assistant turn is recorded: exactly when the reply text is non-empty and no image was generated, and its content is that full reply text (the parsed body plus any browse text) |
| AiCommand.AssistantTurnIffAnswered | commands/ai.js:168-184 | a reply is remembered exactly when it is neither a generated image nor the error notice |
| AiCommand.NextStored | commands/ai.js:146-155 | a stored history longer than 20 becomes exactly its last 12 old turns; otherwise it gains the user prompt and, iff one was recorded, the assistant turn right after it |
| AiCommand.StoredBounded | commands/ai.js:146-175 | over any run of exchanges a stored history never exceeds 22 turns |
| AiCommand.Respond | commands/ai.js:164-209 | the messages sent and the assistant turn recorded are those of the reply |
| AiCommand.History.Execute | commands/ai.js:133-211 | the turns posted are the old stored turns plus the prompt; the stored history becomes the next stored one; the messages are those the reply calls for; other senders are untouched |
| AiCommand.History.Prepare | commands/ai.js:146-155 | the working array is the old history plus the prompt; after a cut the map holds a different array with the last 12 old turns; otherwise the map holds the working array itself |
| AiCommand.History.Remember | commands/ai.js:172-175 | the working array gains the recorded assistant turn, if any; every other sender's turns are untouched |
| AiCommand.History.Exchange | commands/ai.js:145-175 | the turns posted are the old stored turns plus the prompt; the stored history becomes the next stored one; other senders are untouched |
| GetLink.LinkMid | commands/getlink.js:10 | the message id is `reply_to.mid` when truthy, else `mid` |
| GetLink.Classify | commands/getlink.js:22-39 | image data wins over video, video over audio, audio over a file URL; with none of them the type is `unknown` and there is no URL |
| GetLink.AttachmentFor | commands/getlink.js:9-44 | no message id means no lookup and no attachment; otherwise the first listed item is classified, and none listed gives no attachment |
| GetLink.WithFallback | commands/getlink.js:56-63 | a lookup result is kept even without a URL; only when there is none, the cached media is used exactly when it is at most 300000 ms old, with an empty type read as `image` |
| GetLink.FindExt | commands/getlink.js:77 | returns the leftmost `.` followed by a run of characters other than `.` and `?` that ends at `?` or at the end |
| GetLink.UrlExtension | commands/getlink.js:77-78 | an extension is found exactly when the pattern matches; it is the leftmost capture, non-empty, without `.` or `?` |
| GetLink.ExtensionOfName | commands/getlink.js:77-78 | a URL `stem.ext` with an optional query yields exactly `ext` |
| GetLink.FileExtension | commands/getlink.js:72-79 | image, video and audio give `jpg`, `mp4` and `mp3`; other types take the URL's extension, or `bin` |
| GetLink.TypeEmoji | commands/getlink.js:86 | image, video and audio get 🖼️, 🎥 and 🎵; the folder emoji is given exactly to every other type |
| GetLink.Capitalize | commands/getlink.js:104 | only the first character is upper-cased, and the length is kept |
| GetLink.Decimal | commands/getlink.js:82 | a timestamp is written as a non-empty run of decimal digits |
| GetLink.DecimalValue | commands/getlink.js:82 | reading the digits back gives the timestamp |
| GetLink.TempName | commands/getlink.js:82 | the temporary name is `tmp_getlink_`, the time in decimal (read back exactly), a dot and the extension |
| GetLink.Processing | commands/getlink.js:86-87 | the progress notice starts with ⏳, names the type and ends with its emoji |
| GetLink.CatboxFailed | commands/getlink.js:97-99 | the Catbox notice starts with ❎, names the type, and differs from the upload-failed notice |
| GetLink.UploadFailed | commands/getlink.js:107-109 | the upload-failed notice starts with ❎ and names the type |
| GetLink.Verdict | commands/getlink.js:94-109 | a failed download or upload gives the upload-failed notice; an empty link gives the Catbox notice; otherwise the success message |
| GetLink.SuccessMessage | commands/getlink.js:103-105 | the success message starts with `✅ \| ` and the capitalised type, contains the link, and starts differently from both failure notices |
| GetLink.VerdictSuccessIff | commands/getlink.js:94-109 | the closing message reports success exactly when the file was downloaded and Catbox returned a non-empty link |
| GetLink.Transfer | commands/getlink.js:81-118 | a progress message and the verdict's closing message are sent, and the temporary file is gone afterwards whether or not it was written |
| GetLink.Execute | commands/getlink.js:52-118 | without an attachment that has a URL, only the instruction is sent and no file is touched; otherwise a progress message and one closing message are sent, and the temporary file is gone afterwards |

## Left out

- HTTP calls are inputs, not modelled. This covers the Graph API lookups, the POST to the chat service, the media download and the Catbox upload, with their headers, cookies, timeouts and error payloads.
- The temporary file: the filesystem is a set of file names, and the directory of `path.join` is not modelled. A failed `writeFileSync` is modelled like a failed download, because both land in the same `catch`. Cleanup errors are swallowed in the source and are not modelled.
- `readdirSync`, `require` and hot reload in `loadCommands` are not modelled. Registration takes the list of loaded module descriptors.
- Timers: the `setInterval` schedule is a call to `SweepCaches` with the current time. The `setTimeout` staggering and `Promise.allSettled` of chunk sends become an ordered list of messages, in the order the delays aim for.
- `Date.now()` is one `now` argument per event or per command call. The source reads the clock more than once.
- `randomUUID` session ids, logging, and the hard-coded configuration and cookies are not modelled.
- `sendMessage` comes from a module that is not part of this model. Sends are appended to an outbox or a list of sent messages, and a send that fails is not modelled.
- Dispatch.Bot.DispatchText: the handler's own work is not modelled; the dispatcher records an `Invoke` effect, and `HandlerOutcome` says whether it threw. The `ai` and `getlink` handlers are modelled on their own in `AiCommand` and `GetLink`.
- AiText.ParseResponse: the reply body is a string. `JSON.stringify` of non-string data is not modelled, and only the `\n` escape is rewritten, as in the source.
- AiCommand.Outcome: tool results are abstracted. `shown` stands for the template-rendered `result`, and an empty snippet stands for a falsy one.
- An attachment listing without a `data` array reads as an empty listing, which gives the same `null` result as in the source.
- Text.ToLower: maps only ASCII letters; full Unicode case mapping is not modelled.
- GetLink.Capitalize: upper-cases only an ASCII first letter; full Unicode case mapping is not modelled.
- Strings are sequences of code points, while JavaScript's `length` and `slice` count UTF-16 code units. Every character outside the Basic Multilingual Plane is two code units in the source: the reply header alone holds 12 of them, and every bold letter or digit is one. So for nearly every formatted reply the source cuts its chunks at different places than the model, fits fewer characters into each, and can send more chunks. A boundary inside a surrogate pair is not modelled either.
- AiCommand.DeliverFormatted: its "1 to 1900 characters" per chunk counts code points; the source's limit of 1900 counts UTF-16 code units.
- AiCommand.History.Execute: the source's `execute` suspends at `await axios.post` (commands/ai.js:158), between pushing the user turn (line 155) and the assistant turn (line 174). Overlapping exchanges from one sender can therefore push onto the same array in an interleaved order. The model runs each exchange to completion, so `StoredBounded` holds only for exchanges that do not overlap.
- Regular expressions are modelled as hand-written scanners with the same leftmost-match semantics. No regex engine is modelled.
- The image-URL branch of the `ai` reply sends one image attachment. The attachment payload's `is_reusable` flag is not modelled.

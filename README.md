# Yozuk chat bots: message pipeline model

Two bots connect chat transports to the Yozuk command engine. The Discord bot
has one function, `handle_message`. The Delta Chat bot has a `Server` with
`handle_event`, `handle_command`, `render_output` and `render_block`. Each
takes one inbound message, decides whether to answer, builds the input streams
and asks the engine for commands. If there are none, it sends a fixed notice.
Otherwise it runs the commands, treats `Ok` and `Err` outputs alike, and
renders the output blocks into transport messages. The Discord bot also strips
mention tokens from the text and caps the total attachment size. The Delta
Chat bot passes the text on as it is, and answers a message it could not
decrypt with an apology.

The model is written in Dafny, one module per concern:

- `Utf8` (utf8.dfy): the UTF-8 grammar of section 4 of RFC 3629 (`Valid`). It
  also holds the decoder that `str::from_utf8` is (`Decode`) and the encoder
  it inverts (`Encode`). Decoding succeeds exactly on valid input, and the two
  functions are proved to be inverses.
- `YozukSdk` (yozuk_sdk.dfy): blocks, outputs, the `Ok`/`Err` run result and
  input streams. The engine is a record of three uninterpreted functions:
  tokenize, get commands and run commands. Every property therefore holds for
  any engine.
- `Mentions` (mentions.dfy): a hand-written scanner for the `<@\d+>`
  replacement. It is proved to delete exactly the characters of mention
  tokens and to keep every other character in order.
- `Discord` (discord.dfy): the gating predicate, the size cap, stream
  building, block classification and the render loop. `Render` is a method
  with the source's nested `for` loops, proved against `ContentOf` and
  `FilesOf`. `HandleMessage` returns the list of sends and is proved against
  `MessageActions`.
- `DeltaChat` (deltachat.dfy): a `Server` class whose `outbox` records every
  mark-seen and send call in order. Its methods are proved against `EventActions`,
  `CommandActions`, `RenderBlocks` and `BlockMessage`.

The Discord bot shows UTF-8 data inline only when it is at most 1024 bytes.
The count is in bytes because it comes from `text.len()`. The Discord renderer
drops block kinds other than comment and data, while the Delta Chat renderer
sends `[unimplemented]` for them. Neither bot trims the normalised text.

## Model

| member | source | states |
|---|---|---|
| Utf8.Decode | discord/src/main.rs:113 | `str::from_utf8`: reads the first character's length off its lead byte, checks that character against the grammar and decodes the rest; its meaning is stated by `Utf8.DecodeMeaning` and `Utf8.DecodeEncode` |
| Utf8.DecodeMeaning | discord/src/main.rs:113-114 | decoding succeeds exactly when the bytes are valid UTF-8 under the RFC 3629 grammar, and the decoded text encodes back to the same bytes |
| Utf8.DecodeEncode | deltachat/src/main.rs:173 | every string survives encoding then decoding, so the text a bot sends for UTF-8 data is the data's own text |
| Utf8.ValidStep | deltachat/src/main.rs:173 | the grammar is unambiguous: the lead byte alone fixes the first character's length, as a decoder assumes |
| YozukSdk.MediaTypeOr | discord/src/main.rs:64-68 | the declared type is used when present and parsable; a missing or unparsable type becomes `application/octet-stream` |
| YozukSdk.BlocksAppend | deltachat/src/main.rs:153-156 | flattening outputs into blocks keeps output order across concatenation |
| Mentions.StripMentions | discord/src/main.rs:44-48 | the `<@\d+>` replacement as a left-to-right scan that drops each token where it starts; what it removes and keeps is stated by `Mentions.StripMentionsKeepsUncovered`, and the single pass by `Mentions.NotIdempotent` |
| Mentions.MentionLenExact | discord/src/main.rs:44-48 | a `<@digits>` token starts at i exactly when the scanner says so, and it has exactly the scanner's length |
| Mentions.StripMentionsKeepsUncovered | discord/src/main.rs:44-48 | stripping removes exactly the characters of every mention token of any user and keeps all other characters in order |
| Mentions.StripWithoutOpening | discord/src/main.rs:44-48 | text containing no `<` is left unchanged |
| Mentions.NotIdempotent | discord/src/main.rs:44-48 | the replacement is a single pass: `<@<@1>2>` becomes `<@2>`, which a second pass would remove |
| Discord.Addressed | discord/src/main.rs:39-42 | the gate: not the bot's own message, and a DM or a mention of the bot; `Discord.AnswersOnlyAddressed` states that the bot answers exactly these messages |
| Discord.TotalSize | discord/src/main.rs:50 | the `fold` summing attachment sizes; `Discord.TotalSizeAppend` states that it counts every attachment once, and `Discord.OversizeOnlyNotice` and `Discord.AtCapProceeds` state how the cap applies to it |
| Discord.TotalSizeAppend | discord/src/main.rs:50 | the total of concatenated attachment lists is the sum of their totals, so every attachment is counted exactly once |
| Discord.Streams | discord/src/main.rs:57-70 | at most one stream per attachment; when every download succeeds, stream k holds attachment k's bytes with its defaulted media type |
| Discord.StreamsAppend | discord/src/main.rs:57-70 | streams are built attachment by attachment, so attachment order is kept |
| Discord.FailedDownloadDropped | discord/src/main.rs:58-61 | a failed download drops exactly that attachment and leaves the others and their order unchanged |
| Discord.FileName | discord/src/main.rs:118-122 | an attached file is never unnamed: it keeps its own name if it has one, else it is `data.` plus the media type's extension |
| Discord.Classify | discord/src/main.rs:109-127 | the `match` on one block of the render loop; its meaning is stated by `Discord.ClassifyMeaning` |
| Discord.ClassifyMeaning | discord/src/main.rs:109-127 | a comment is its text verbatim; data is fenced inline text iff it is valid UTF-8 of at most 1024 bytes, with the fenced text encoding back to the data; other data is a file; other kinds contribute nothing |
| Discord.RenderAppend | discord/src/main.rs:104-129 | text fragments and files of concatenated blocks are those of the parts in order, so block emission order is kept in both lists |
| Discord.RenderCounts | discord/src/main.rs:107-129 | every comment and data block contributes exactly one fragment or one file, and only other kinds contribute nothing |
| Discord.Render | discord/src/main.rs:104-129 | the nested loop over outputs and blocks builds exactly the fragment list and the file list of the flattened blocks |
| Discord.Join | discord/src/main.rs:133 | `content.join("\n")`; `Discord.JoinSnoc` states how the joined text grows |
| Discord.JoinSnoc | discord/src/main.rs:133 | joining one fragment more appends the separator and that fragment, and a single fragment is the whole text, so the fragments appear in order with one separator between neighbours |
| Discord.RenderedSend | discord/src/main.rs:131-141 | the combined send: `ContentOf` joined by newlines, all of `FilesOf`, no embed; `Discord.Render`, `Discord.RenderAppend`, `Discord.JoinSnoc` and `Discord.CommentsJoined` state what its parts are |
| Discord.HandleMessage | discord/src/main.rs:39-144 | the handler's sends are exactly `MessageActions`: the gating, the size cap, the no-command notice, or one combined send of the joined fragments and all files |
| Discord.AnswersOnlyAddressed | discord/src/main.rs:40-43 | a message gets exactly one send if it is not the bot's own and is a DM or mentions the bot, and none otherwise |
| Discord.OversizeOnlyNotice | discord/src/main.rs:50-55 | over 10485760 bytes the only send is the size notice, and the result is the same for any engine, so nothing is resolved or run |
| Discord.AtCapProceeds | discord/src/main.rs:19 | a total of exactly 10485760 bytes goes on to the engine (shown by its no-command notice) |
| Discord.NotUnderstoodNeverRuns | discord/src/main.rs:73-89 | with no commands the only send is the notice with its documentation hint, whatever running commands would return |
| Discord.OkErrAlike | discord/src/main.rs:96-102 | engines whose runs give the same outputs, whether as `Ok` or `Err`, produce the same sends |
| Discord.CommentsJoined | discord/src/main.rs:131-134 | two consecutive comments are sent as one text, joined by a newline, with no files |
| DeltaChat.Username | deltachat/src/main.rs:90-94 | the user name is absent exactly when the contact's address equals its display name, else it is the display name |
| DeltaChat.Streams | deltachat/src/main.rs:110-118 | a message yields at most one stream, exactly when it has a readable file, with the file's bytes and its defaulted MIME type |
| DeltaChat.BlockMessage | deltachat/src/main.rs:167-190 | each block yields one message in the chat: a comment as its text; UTF-8 data as text iff valid, the whole unfenced text encoding back to the data; other data as a file with its bytes and media type; other kinds as `[unimplemented]` |
| DeltaChat.RenderBlocksOnePerBlock | deltachat/src/main.rs:160-165 | rendering sends exactly one message per block, and message k is the message of block k |
| DeltaChat.RenderBlocksAppend | deltachat/src/main.rs:153-156 | the messages of concatenated blocks are those of the parts, one after the other |
| DeltaChat.ReplyActions | deltachat/src/main.rs:100-121 | the routing of a loaded message: no text gives nothing, a decryption failure the apology, a system message or an unreadable file nothing, else the command answer; stated by `DeltaChat.DecryptFailureApology`, `DeltaChat.SilentMessages` and `DeltaChat.AnsweredInSendersChat` |
| DeltaChat.Server.constructor | deltachat/src/main.rs:49-52 | a new server has the given engine and an empty outbox |
| DeltaChat.Server.HandleEvent | deltachat/src/main.rs:84-125 | handling an event appends exactly `EventActions` to the outbox |
| DeltaChat.Server.HandleCommand | deltachat/src/main.rs:127-158 | handling a command appends exactly `CommandActions`: the notice, or the messages of all blocks of all outputs in order |
| DeltaChat.Server.RenderOutput | deltachat/src/main.rs:160-165 | rendering an output appends the messages of its blocks in order |
| DeltaChat.Server.RenderBlock | deltachat/src/main.rs:167-192 | rendering a block appends exactly its one message |
| DeltaChat.DecryptFailureApology | deltachat/src/main.rs:100-108 | text ending in the decryption-failure marker gets only the apology, for any engine and even for a system message |
| DeltaChat.SilentMessages | deltachat/src/main.rs:100-121 | a message without text, or a system message that is not a decryption failure, is only marked seen |
| DeltaChat.AnsweredInSendersChat | deltachat/src/main.rs:86-119 | an incoming message is marked seen first, and every later message goes to the sender's chat |
| DeltaChat.NotUnderstoodNeverRuns | deltachat/src/main.rs:136-145 | with no commands the only message is the fixed notice, whatever running commands would return |
| DeltaChat.OkErrAlike | deltachat/src/main.rs:147-151 | engines whose runs give the same outputs, whether as `Ok` or `Err`, produce the same messages |

## Left out

- Asynchrony, the serenity and Delta Chat SDKs, and the tokio runtime are not modelled. Each send is a value in a returned list (Discord), and each mark-seen or send call is an entry appended to `outbox` (Delta Chat).
- Send failures are not modelled; every send is assumed to succeed. In the source, a failed send ends the handler through `?`, and in Delta Chat it would skip the remaining blocks.
- The Yozuk engine (`Tokenizer::tokenize`, `get_commands`, `run_commands`) is not modelled. Its three operations are uninterpreted function values. Changes that `run_commands` makes to the streams it borrows are not modelled, since the bots do not read the streams afterwards.
- `get_file_extension`, `MediaType::parse` and `MediaTypeBuf::from_string` are foreign helpers, so they are function parameters. A media type is its textual form.
- Mentions.StripMentions: `\d` matches only the ASCII digits here. The regex crate's `\d` also matches the other Unicode decimal digits. The `i` flag changes nothing because the pattern has no letters.
- Discord.TotalSize: the sum is unbounded. The source adds `u64` sizes, which could wrap only for a total of at least 2^64 bytes.
- Discord attachment downloads are inputs: each attachment carries the outcome of its download.
- Every Discord send is a reply to the incoming message, so the reply reference is not a field of `Send`. The embed is modelled only as its name, value and inline flag.
- Delta Chat database reads are modelled as map lookups, and a missing entry ends handling after the message is marked seen. `ChatId::create_for_contact` is modelled as naming the chat by the sender's contact id. The chat it creates is not recorded in `outbox`, even for a message that gets no reply, and its failure is not modelled.
- Delta Chat's temporary file for file messages is not modelled. The message carries the bytes directly, and temporary-file errors are not modelled.
- Bootstrap and I/O are not modelled: `main`, `Args`, credentials, `Server::new`'s engine builder, `start` (configuration, avatar, `start_io`, the event loop, and a handler error ending that loop), and Discord's `ready`.
- Concurrency between message handlers and the `Arc` sharing of the engine are not modelled; the handlers share no mutable state.

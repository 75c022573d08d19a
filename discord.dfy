/** The Discord bot's message handler (`handle_message`). The SDK calls are
    gone: the handler returns the list of sends it makes, each of them a reply
    to the incoming message. Downloading an attachment is an input: every
    attachment carries the outcome its download would have. */
module Discord {
  import opened Wrappers
  import opened Utf8
  import opened YozukSdk
  import Mentions

  /** Largest total attachment size the bot accepts, 10 MiB. */
  const MAX_FILE_SIZE: nat := 10485760

  /** Largest UTF-8 data, in bytes, that is shown inline rather than attached. */
  const INLINE_LIMIT: nat := 1024

  const TOO_LARGE: string := "Too large file input (10MiB max.)"
  const NOT_UNDERSTOOD: string := "Sorry, I can't understand your request."
  const HINT: EmbedField := EmbedField("Hint",
    "Please refer [Documentation](https://docs.yozuk.com/) for available commands.", true)

  datatype User = User(id: nat, name: string)

  /** An attachment as Discord announces it, with the result of downloading it. */
  datatype Attachment = Attachment(size: nat, contentType: Option<string>, download: Option<seq<byte>>)

  datatype Message = Message(
    author: User,
    guildId: Option<nat>,
    mentions: seq<User>,
    content: string,
    attachments: seq<Attachment>)

  datatype EmbedField = EmbedField(name: string, value: string, inline: bool)

  /** A file sent with a message: its bytes and its name. */
  datatype OutFile = OutFile(data: seq<byte>, name: string)

  /** One `send_message` (or `reply`) to the channel of the incoming message. */
  datatype Action = Send(content: string, embed: Option<EmbedField>, files: seq<OutFile>)

  /** The bot: its own user id, the engine, and the two helpers it borrows,
      the media type parser and the file extension of a media type. */
  datatype Handler = Handler(
    userId: nat,
    engine: Engine,
    parseMediaType: string -> Option<MediaType>,
    extension: MediaType -> string)

  // ---------------------------------------------------------------- gating

  /** The bot acts on a message that is not its own and that is either a direct
      message (no guild) or mentions the bot. */
  predicate Addressed(h: Handler, msg: Message) {
    var echo := msg.author.id == h.userId;
    var dm := msg.guildId.None?;
    var mention := exists u :: u in msg.mentions && u.id == h.userId;
    !echo && (dm || mention)
  }

  // ---------------------------------------------------------------- input

  /** The sum of the announced attachment sizes. */
  function TotalSize(attachments: seq<Attachment>): nat
  {
    if attachments == [] then 0
    else TotalSize(attachments[..|attachments| - 1]) + attachments[|attachments| - 1].size
  }

  /** The size check adds up every attachment, each once. */
  lemma {:induction false} TotalSizeAppend(a: seq<Attachment>, b: seq<Attachment>)
    ensures TotalSize(a + b) == TotalSize(a) + TotalSize(b)
    decreases |b|
  {
    if b == [] {
      assert a + b == a;
    } else {
      var last := |b| - 1;
      assert (a + b)[..|a + b| - 1] == a + b[..last];
      assert (a + b)[|a + b| - 1] == b[last];
      TotalSizeAppend(a, b[..last]);
    }
  }

  /** The input streams: one per attachment whose download succeeded, in order,
      typed by its declared content type or `application/octet-stream`. */
  function Streams(parse: string -> Option<MediaType>, attachments: seq<Attachment>): (r: seq<InputStream>)
    ensures |r| <= |attachments|
    ensures (forall k :: 0 <= k < |attachments| ==> attachments[k].download.Some?) ==>
      |r| == |attachments| &&
      forall k :: 0 <= k < |r| ==>
        r[k] == InputStream(attachments[k].download.value,
                            MediaTypeOr(parse, attachments[k].contentType))
  {
    if attachments == [] then []
    else
      var att := attachments[0];
      var rest := Streams(parse, attachments[1..]);
      assert forall k :: 1 <= k < |attachments| ==> attachments[1..][k - 1] == attachments[k];
      match att.download
      case Some(data) => [InputStream(data, MediaTypeOr(parse, att.contentType))] + rest
      case None => rest
  }

  /** Streams are built attachment by attachment: the streams of a concatenation
      are the concatenation of the streams. */
  lemma {:induction false} StreamsAppend(parse: string -> Option<MediaType>, a: seq<Attachment>, b: seq<Attachment>)
    ensures Streams(parse, a + b) == Streams(parse, a) + Streams(parse, b)
  {
    if a != [] {
      assert (a + b)[0] == a[0] && (a + b)[1..] == a[1..] + b;
      StreamsAppend(parse, a[1..], b);
    } else {
      assert a + b == b;
    }
  }

  /** A failed download drops that attachment and nothing else. */
  lemma FailedDownloadDropped(parse: string -> Option<MediaType>, a: seq<Attachment>, x: Attachment, b: seq<Attachment>)
    requires x.download.None?
    ensures Streams(parse, a + [x] + b) == Streams(parse, a + b)
  {
    StreamsAppend(parse, a + [x], b);
    StreamsAppend(parse, a, [x]);
    StreamsAppend(parse, a, b);
    assert Streams(parse, [x]) == [] by {
      assert [x][1..] == [];
    }
  }

  // ---------------------------------------------------------------- rendering

  /** What one block contributes to the combined send. */
  datatype Piece = Text(text: string) | File(file: OutFile) | Nothing

  function Fence(text: string): string {
    "```\n" + text + "\n```"
  }

  /** The name of an attached data block: its own name, or `data.` and the
      extension of its media type when it has none. */
  function FileName(extension: MediaType -> string, data: Block): (name: string)
    requires data.Data?
    ensures name != []
    ensures data.fileName != [] ==> name == data.fileName
    ensures data.fileName == [] ==>
      |name| >= 5 && name[..5] == "data." && name[5..] == extension(data.mediaType)
  {
    if data.fileName == [] then "data." + extension(data.mediaType) else data.fileName
  }

  /** What one block contributes: `ClassifyMeaning` states it. */
  function Classify(extension: MediaType -> string, b: Block): Piece
  {
    match b
    case Comment(text) => Text(text)
    case Data(data, _, _) =>
      var decoded := Decode(data);
      if decoded.Some? && |data| <= INLINE_LIMIT then Text(Fence(decoded.value))
      else File(OutFile(data, FileName(extension, b)))
    case Other(_) => Nothing
  }

  /** Comments are text; data is fenced text when it is UTF-8 of at most
      INLINE_LIMIT bytes, and the fenced text encodes back to the data; other
      data is a file; other kinds contribute nothing. */
  lemma ClassifyMeaning(extension: MediaType -> string, b: Block)
    ensures b.Comment? ==> Classify(extension, b) == Text(b.text)
    ensures b.Other? ==> Classify(extension, b) == Nothing
    ensures b.Data? ==> (Classify(extension, b).Text? <==> Valid(b.data) && |b.data| <= INLINE_LIMIT)
    ensures b.Data? && Classify(extension, b).Text? ==>
      var t := Classify(extension, b).text;
      |t| >= 8 && t[..4] == "```\n" && t[|t| - 4..] == "\n```" && Encode(t[4..|t| - 4]) == b.data
    ensures b.Data? && !Classify(extension, b).Text? ==>
      Classify(extension, b) == File(OutFile(b.data, FileName(extension, b)))
  {
    if b.Data? {
      DecodeMeaning(b.data);
      var decoded := Decode(b.data);
      if decoded.Some? {
        var t := Fence(decoded.value);
        assert t[4..|t| - 4] == decoded.value;
      }
    }
  }

  /** The text fragment of a piece, if it is one. */
  function TextOf(p: Piece): seq<string> {
    if p.Text? then [p.text] else []
  }

  /** The file of a piece, if it is one. */
  function FileOf(p: Piece): seq<OutFile> {
    if p.File? then [p.file] else []
  }

  /** The piece of every block, in block order. */
  function Pieces(extension: MediaType -> string, blocks: seq<Block>): seq<Piece>
  {
    seq(|blocks|, k requires 0 <= k < |blocks| => Classify(extension, blocks[k]))
  }

  /** The text fragments among pieces, in order. */
  function Texts(pieces: seq<Piece>): seq<string>
  {
    if pieces == [] then [] else Texts(pieces[..|pieces| - 1]) + TextOf(pieces[|pieces| - 1])
  }

  /** The files among pieces, in order. */
  function FilesIn(pieces: seq<Piece>): seq<OutFile>
  {
    if pieces == [] then [] else FilesIn(pieces[..|pieces| - 1]) + FileOf(pieces[|pieces| - 1])
  }

  /** The text fragments of a sequence of blocks, in block order. */
  function ContentOf(extension: MediaType -> string, blocks: seq<Block>): seq<string>
  {
    Texts(Pieces(extension, blocks))
  }

  /** The attached files of a sequence of blocks, in block order. */
  function FilesOf(extension: MediaType -> string, blocks: seq<Block>): seq<OutFile>
  {
    FilesIn(Pieces(extension, blocks))
  }

  lemma {:induction false} TextsAppend(p: seq<Piece>, q: seq<Piece>)
    ensures Texts(p + q) == Texts(p) + Texts(q)
    decreases |q|
  {
    if q == [] {
      assert p + q == p;
    } else {
      var last := |q| - 1;
      assert (p + q)[..|p + q| - 1] == p + q[..last];
      assert (p + q)[|p + q| - 1] == q[last];
      TextsAppend(p, q[..last]);
    }
  }

  lemma {:induction false} FilesAppend(p: seq<Piece>, q: seq<Piece>)
    ensures FilesIn(p + q) == FilesIn(p) + FilesIn(q)
    decreases |q|
  {
    if q == [] {
      assert p + q == p;
    } else {
      var last := |q| - 1;
      assert (p + q)[..|p + q| - 1] == p + q[..last];
      assert (p + q)[|p + q| - 1] == q[last];
      FilesAppend(p, q[..last]);
    }
  }

  /** Rendering keeps block order: the text and the files of a concatenation
      are those of its parts, one after the other. */
  lemma RenderAppend(extension: MediaType -> string, a: seq<Block>, b: seq<Block>)
    ensures ContentOf(extension, a + b) == ContentOf(extension, a) + ContentOf(extension, b)
    ensures FilesOf(extension, a + b) == FilesOf(extension, a) + FilesOf(extension, b)
  {
    assert Pieces(extension, a + b) == Pieces(extension, a) + Pieces(extension, b);
    TextsAppend(Pieces(extension, a), Pieces(extension, b));
    FilesAppend(Pieces(extension, a), Pieces(extension, b));
  }

  /** One more block adds its own piece at the end. */
  lemma RenderStep(extension: MediaType -> string, blocks: seq<Block>, b: Block)
    ensures ContentOf(extension, blocks + [b])
         == ContentOf(extension, blocks) + TextOf(Classify(extension, b))
    ensures FilesOf(extension, blocks + [b])
         == FilesOf(extension, blocks) + FileOf(Classify(extension, b))
  {
    var ps := Pieces(extension, blocks + [b]);
    assert ps[..|blocks|] == Pieces(extension, blocks);
  }

  /** The render loop's step: block j of the current output adds its piece. */
  lemma RenderNext(extension: MediaType -> string, done: seq<Block>, blocks: seq<Block>, j: nat)
    requires j < |blocks|
    ensures ContentOf(extension, done + blocks[..j + 1])
         == ContentOf(extension, done + blocks[..j]) + TextOf(Classify(extension, blocks[j]))
    ensures FilesOf(extension, done + blocks[..j + 1])
         == FilesOf(extension, done + blocks[..j]) + FileOf(Classify(extension, blocks[j]))
  {
    assert done + blocks[..j + 1] == (done + blocks[..j]) + [blocks[j]];
    RenderStep(extension, done + blocks[..j], blocks[j]);
  }

  /** Every comment and every inline data block yields one text fragment, every
      other data block one file, and other kinds nothing. */
  lemma {:induction false} RenderCounts(extension: MediaType -> string, blocks: seq<Block>)
    ensures |ContentOf(extension, blocks)| + |FilesOf(extension, blocks)| == |blocks| - Others(blocks)
  {
    if blocks != [] {
      var init := blocks[..|blocks| - 1];
      RenderCounts(extension, init);
      assert blocks == init + [blocks[|blocks| - 1]];
      RenderStep(extension, init, blocks[|blocks| - 1]);
    }
  }

  /** The number of blocks of a kind the renderer does not handle. */
  function Others(blocks: seq<Block>): nat
  {
    if blocks == [] then 0
    else Others(blocks[..|blocks| - 1]) + if blocks[|blocks| - 1].Other? then 1 else 0
  }

  /** `content.join("\n")`. */
  function Join(parts: seq<string>, sep: string): string
  {
    if parts == [] then []
    else if |parts| == 1 then parts[0]
    else parts[0] + sep + Join(parts[1..], sep)
  }

  /** Joining one more fragment adds the separator and that fragment at the
      end; a single fragment is its own text. */
  lemma {:induction false} JoinSnoc(parts: seq<string>, part: string, sep: string)
    ensures parts == [] ==> Join(parts + [part], sep) == part
    ensures parts != [] ==> Join(parts + [part], sep) == Join(parts, sep) + sep + part
    decreases |parts|
  {
    if |parts| == 1 {
      assert (parts + [part])[1..] == [part];
    } else if |parts| > 1 {
      assert (parts + [part])[1..] == parts[1..] + [part];
      JoinSnoc(parts[1..], part, sep);
    }
  }

  /** The render loop of `handle_message`: a nested loop over outputs and their
      blocks that pushes text fragments and files. */
  method Render(extension: MediaType -> string, outputs: seq<Output>) returns (content: seq<string>, files: seq<OutFile>)
    ensures content == ContentOf(extension, Blocks(outputs))
    ensures files == FilesOf(extension, Blocks(outputs))
  {
    content, files := [], [];
    for i := 0 to |outputs|
      invariant content == ContentOf(extension, Blocks(outputs[..i]))
      invariant files == FilesOf(extension, Blocks(outputs[..i]))
    {
      ghost var done := Blocks(outputs[..i]);
      var blocks := outputs[i].blocks;
      assert done + blocks[..0] == done;
      for j := 0 to |blocks|
        invariant content == ContentOf(extension, done + blocks[..j])
        invariant files == FilesOf(extension, done + blocks[..j])
      {
        RenderNext(extension, done, blocks, j);
        match blocks[j] {
          case Comment(text) =>
            content := content + [text];
          case Data(data, mediaType, fileName) =>
            var text := Decode(data);
            // `text.len()` counts the bytes of the text, which are `data`
            if text.Some? && |data| <= INLINE_LIMIT {
              assert Classify(extension, blocks[j]) == Text(Fence(text.value));
              content := content + [Fence(text.value)];
            } else {
              var name := if fileName == [] then "data." + extension(mediaType) else fileName;
              assert Classify(extension, blocks[j]) == File(OutFile(data, name));
              files := files + [OutFile(data, name)];
            }
          case Other(_) =>
        }
      }
      assert blocks[..|blocks|] == blocks;
      BlocksStep(outputs, i);
    }
    assert outputs[..|outputs|] == outputs;
  }

  // ---------------------------------------------------------------- pipeline

  /** The one send after a successful resolution: all text fragments joined by
      newlines, with all files. */
  function RenderedSend(extension: MediaType -> string, outputs: seq<Output>): Action
  {
    Send(Join(ContentOf(extension, Blocks(outputs)), "\n"), None, FilesOf(extension, Blocks(outputs)))
  }

  /** What the bot sends for one message. */
  function MessageActions(h: Handler, msg: Message): seq<Action>
  {
    if !Addressed(h, msg) then []
    else if TotalSize(msg.attachments) > MAX_FILE_SIZE then [Send(TOO_LARGE, None, [])]
    else
      var streams := Streams(h.parseMediaType, msg.attachments);
      var tokens := h.engine.tokenize(Mentions.StripMentions(msg.content));
      var commands := h.engine.getCommands(tokens, streams);
      if commands == [] then [Send(NOT_UNDERSTOOD, Some(HINT), [])]
      else
        var user := UserContext(Some(msg.author.name));
        [RenderedSend(h.extension, h.engine.runCommands(commands, streams, user).outputs)]
  }

  /** `handle_message`. */
  method HandleMessage(h: Handler, msg: Message) returns (actions: seq<Action>)
    ensures actions == MessageActions(h, msg)
  {
    var echo := msg.author.id == h.userId;
    var dm := msg.guildId.None?;
    var mention := exists u :: u in msg.mentions && u.id == h.userId;
    if !echo && (dm || mention) {
      var content := Mentions.StripMentions(msg.content);
      var filesize := TotalSize(msg.attachments);
      if filesize > MAX_FILE_SIZE {
        return [Send(TOO_LARGE, None, [])];
      }
      var streams := Streams(h.parseMediaType, msg.attachments);
      var tokens := h.engine.tokenize(content);
      var commands := h.engine.getCommands(tokens, streams);
      if commands == [] {
        return [Send(NOT_UNDERSTOOD, Some(HINT), [])];
      }
      var user := UserContext(Some(msg.author.name));
      var outputs := match h.engine.runCommands(commands, streams, user)
        case Ok(outputs) => outputs
        case Err(outputs) => outputs;
      var text, files := Render(h.extension, outputs);
      actions := [Send(Join(text, "\n"), None, files)];
    } else {
      actions := [];
    }
  }

  // ---------------------------------------------------------------- properties

  /** The bot answers a message, with exactly one send, if and only if the
      message is addressed to it. */
  lemma AnswersOnlyAddressed(h: Handler, msg: Message)
    ensures |MessageActions(h, msg)| == if Addressed(h, msg) then 1 else 0
  {
  }

  /** Over the cap the only answer is the size notice, whatever the engine is:
      nothing is resolved or run. */
  lemma OversizeOnlyNotice(h: Handler, msg: Message, other: Engine)
    requires Addressed(h, msg) && TotalSize(msg.attachments) > MAX_FILE_SIZE
    ensures MessageActions(h, msg) == [Send(TOO_LARGE, None, [])]
    ensures MessageActions(h.(engine := other), msg) == MessageActions(h, msg)
  {
  }

  /** A total exactly at the cap proceeds to the engine: when it resolves
      nothing, the answer is the "can't understand" send. */
  lemma AtCapProceeds(h: Handler, msg: Message)
    requires Addressed(h, msg) && TotalSize(msg.attachments) == MAX_FILE_SIZE
    requires h.engine.getCommands(h.engine.tokenize(Mentions.StripMentions(msg.content)),
                                  Streams(h.parseMediaType, msg.attachments)) == []
    ensures MessageActions(h, msg) == [Send(NOT_UNDERSTOOD, Some(HINT), [])]
  {
  }

  /** When nothing is resolved the answer is the fixed notice with its hint,
      whatever running commands would have given. */
  lemma NotUnderstoodNeverRuns(h: Handler, msg: Message, run: (seq<CommandArgs>, seq<InputStream>, UserContext) -> RunResult)
    requires Addressed(h, msg) && TotalSize(msg.attachments) <= MAX_FILE_SIZE
    requires h.engine.getCommands(h.engine.tokenize(Mentions.StripMentions(msg.content)),
                                  Streams(h.parseMediaType, msg.attachments)) == []
    ensures MessageActions(h, msg) == [Send(NOT_UNDERSTOOD, Some(HINT), [])]
    ensures MessageActions(h.(engine := h.engine.(runCommands := run)), msg) == MessageActions(h, msg)
  {
  }

  /** `Ok` and `Err` are rendered alike: an engine whose runs give the same
      outputs, under either variant, leads to the same sends. */
  lemma OkErrAlike(h: Handler, msg: Message, run: (seq<CommandArgs>, seq<InputStream>, UserContext) -> RunResult)
    requires forall c, s, u :: run(c, s, u).outputs == h.engine.runCommands(c, s, u).outputs
    ensures MessageActions(h.(engine := h.engine.(runCommands := run)), msg) == MessageActions(h, msg)
  {
  }

  /** The text of the rendered send for consecutive comments is those comments
      on separate lines. */
  lemma CommentsJoined(extension: MediaType -> string, first: string, second: string)
    ensures RenderedSend(extension, [Output([Comment(first), Comment(second)])])
         == Send(first + "\n" + second, None, [])
  {
    var blocks := [Comment(first), Comment(second)];
    assert Blocks([Output(blocks)]) == blocks by {
      assert [Output(blocks)][..0] == [];
    }
    RenderStep(extension, [], Comment(first));
    assert [] + [Comment(first)] == blocks[..1];
    RenderStep(extension, blocks[..1], Comment(second));
    assert blocks[..1] + [Comment(second)] == blocks;
    assert ContentOf(extension, blocks) == [first, second];
    assert FilesOf(extension, blocks) == [];
    assert [first, second][1..] == [second];
    assert Join([second], "\n") == second;
    assert Join([first, second], "\n") == first + "\n" + second;
  }
}

/** The Delta Chat bot's `Server`: event handling, command handling and the
    per-block renderer. Every mark-seen and send call the server makes (marking
    a message seen, sending a text or a file) becomes an entry appended to
    `outbox`, in the order the calls happen. Reads from the Delta Chat database
    are inputs, and creating the chat with the sender is not recorded. */
module DeltaChat {
  import opened Wrappers
  import opened Utf8
  import opened YozukSdk

  /** The text Delta Chat shows for a message it could not decrypt. */
  const DECRYPT_FAILURE: string := "[This message was encrypted for another setup.]"

  const DECRYPT_APOLOGY: string := "Sorry, I can't decrypt your message. Please send the message again."
  const NOT_UNDERSTOOD: string := "Sorry, I can't understand your request."
  const UNIMPLEMENTED: string := "[unimplemented]"

  datatype Contact = Contact(addr: string, displayName: string)

  /** The file of a message: none, one that opens with these bytes, or one that
      cannot be opened. */
  datatype MessageFile = NoFile | Readable(data: seq<byte>) | Unreadable

  datatype ChatMessage = ChatMessage(
    fromId: nat,
    text: Option<string>,
    isSystem: bool,
    file: MessageFile,
    fileMime: Option<string>)

  /** What the database holds, as far as the server reads it. */
  datatype Store = Store(messages: map<nat, ChatMessage>, contacts: map<nat, Contact>)

  datatype Event = IncomingMsg(msgId: nat) | OtherEvent

  /** One call into the chat SDK. A chat is named by the contact it is with. */
  datatype Outgoing =
    | MarkSeen(msgId: nat)
    | SendText(chat: nat, text: string)
    | SendFile(chat: nat, data: seq<byte>, mediaType: MediaType)

  predicate EndsWith(s: string, suffix: string) {
    |suffix| <= |s| && s[|s| - |suffix|..] == suffix
  }

  /** A contact whose address doubles as its display name has no user name. */
  function Username(contact: Contact): (r: Option<string>)
    ensures r.None? <==> contact.addr == contact.displayName
    ensures r.Some? ==> r.value == contact.displayName
  {
    if contact.addr == contact.displayName then None else Some(contact.displayName)
  }

  /** The input streams of a message: at most one, from its file. */
  function Streams(parse: string -> Option<MediaType>, msg: ChatMessage): (r: seq<InputStream>)
    requires !msg.file.Unreadable?
    ensures |r| <= 1
    ensures |r| == 1 <==> msg.file.Readable?
    ensures |r| == 1 ==> r[0].data == msg.file.data && r[0].mediaType == MediaTypeOr(parse, msg.fileMime)
  {
    match msg.file
    case Readable(data) => [InputStream(data, MediaTypeOr(parse, msg.fileMime))]
    case NoFile => []
  }

  /** The one message a block becomes: comments and UTF-8 data as text (the
      whole text, unfenced), other data as a file of its media type, any other
      kind as a placeholder. */
  function BlockMessage(chat: nat, b: Block): (m: Outgoing)
    ensures !m.MarkSeen? && m.chat == chat
    ensures b.Comment? ==> m == SendText(chat, b.text)
    ensures b.Other? ==> m == SendText(chat, UNIMPLEMENTED)
    ensures b.Data? ==> (m.SendText? <==> Valid(b.data))
    ensures b.Data? && m.SendText? ==> Encode(m.text) == b.data
    ensures b.Data? && m.SendFile? ==> m.data == b.data && m.mediaType == b.mediaType
  {
    match b
    case Comment(text) => SendText(chat, text)
    case Data(data, mediaType, _) =>
      DecodeMeaning(data);
      (match Decode(data)
       case Some(text) => SendText(chat, text)
       case None => SendFile(chat, data, mediaType))
    case Other(_) => SendText(chat, UNIMPLEMENTED)
  }

  /** The messages for a sequence of blocks. */
  function RenderBlocks(chat: nat, blocks: seq<Block>): seq<Outgoing>
  {
    if blocks == [] then []
    else RenderBlocks(chat, blocks[..|blocks| - 1]) + [BlockMessage(chat, blocks[|blocks| - 1])]
  }

  /** Nothing is dropped, merged or reordered: message k is the message of block k. */
  lemma {:induction false} RenderBlocksOnePerBlock(chat: nat, blocks: seq<Block>)
    ensures |RenderBlocks(chat, blocks)| == |blocks|
    ensures forall k :: 0 <= k < |blocks| ==> RenderBlocks(chat, blocks)[k] == BlockMessage(chat, blocks[k])
  {
    if blocks != [] {
      var init := blocks[..|blocks| - 1];
      RenderBlocksOnePerBlock(chat, init);
      assert forall k :: 0 <= k < |init| ==> init[k] == blocks[k];
    }
  }

  /** Rendering a concatenation renders its parts one after the other. */
  lemma RenderBlocksAppend(chat: nat, a: seq<Block>, b: seq<Block>)
    ensures RenderBlocks(chat, a + b) == RenderBlocks(chat, a) + RenderBlocks(chat, b)
  {
    RenderBlocksOnePerBlock(chat, a + b);
    RenderBlocksOnePerBlock(chat, a);
    RenderBlocksOnePerBlock(chat, b);
  }

  /** The messages of the first i + 1 outputs extend those of the first i. */
  lemma RenderOutputsStep(chat: nat, outputs: seq<Output>, i: nat)
    requires i < |outputs|
    ensures RenderBlocks(chat, Blocks(outputs[..i + 1]))
         == RenderBlocks(chat, Blocks(outputs[..i])) + RenderBlocks(chat, outputs[i].blocks)
  {
    BlocksStep(outputs, i);
    RenderBlocksAppend(chat, Blocks(outputs[..i]), outputs[i].blocks);
  }

  /** Regrouping appended entries. Given as a lemma so that a loop's proof
      meets this one instance instead of searching for it. */
  lemma AppendAssoc<T>(a: seq<T>, b: seq<T>, c: seq<T>)
    ensures (a + b) + c == a + (b + c)
  {
  }

  /** What `handle_command` sends for a text and its streams. */
  function CommandActions(engine: Engine, chat: nat, text: string, streams: seq<InputStream>,
                          user: UserContext): seq<Outgoing>
  {
    var commands := engine.getCommands(engine.tokenize(text), streams);
    if commands == [] then [SendText(chat, NOT_UNDERSTOOD)]
    else RenderBlocks(chat, Blocks(engine.runCommands(commands, streams, user).outputs))
  }

  /** What `handle_event` does for one event: an incoming message is marked
      seen, loaded with its sender, and answered. */
  function EventActions(engine: Engine, parse: string -> Option<MediaType>, store: Store,
                        event: Event): seq<Outgoing>
  {
    match event
    case OtherEvent => []
    case IncomingMsg(id) =>
      [MarkSeen(id)] +
      if id !in store.messages || store.messages[id].fromId !in store.contacts then []
      else
        var msg := store.messages[id];
        ReplyActions(engine, parse, msg, UserContext(Username(store.contacts[msg.fromId])))
  }

  /** The answer to a loaded message, in the chat with its sender. */
  function ReplyActions(engine: Engine, parse: string -> Option<MediaType>, msg: ChatMessage,
                        user: UserContext): seq<Outgoing>
  {
    match msg.text
    case None => []
    case Some(text) =>
      if EndsWith(text, DECRYPT_FAILURE) then [SendText(msg.fromId, DECRYPT_APOLOGY)]
      else if msg.isSystem || msg.file.Unreadable? then []
      else CommandActions(engine, msg.fromId, text, Streams(parse, msg), user)
  }

  class Server {
    const engine: Engine
    const parseMediaType: string -> Option<MediaType>
    /** Every mark-seen and send call made so far, oldest first. */
    var outbox: seq<Outgoing>

    constructor (engine: Engine, parseMediaType: string -> Option<MediaType>)
      ensures this.engine == engine && this.parseMediaType == parseMediaType
      ensures outbox == []
    {
      this.engine := engine;
      this.parseMediaType := parseMediaType;
      outbox := [];
    }

    method HandleEvent(store: Store, event: Event)
      modifies this
      ensures outbox == old(outbox) + EventActions(engine, parseMediaType, store, event)
    {
      if event.IncomingMsg? {
        var id := event.msgId;
        outbox := outbox + [MarkSeen(id)];
        if id !in store.messages {
          return;
        }
        var msg := store.messages[id];
        var chat := msg.fromId;
        if msg.fromId !in store.contacts {
          return;
        }
        var contact := store.contacts[msg.fromId];
        var username := if contact.addr == contact.displayName then None else Some(contact.displayName);
        var user := UserContext(username);
        ghost var seen := outbox;
        assert EventActions(engine, parseMediaType, store, event)
            == [MarkSeen(id)] + ReplyActions(engine, parseMediaType, msg, user);
        if msg.text.Some? {
          var text := msg.text.value;
          if EndsWith(text, DECRYPT_FAILURE) {
            outbox := outbox + [SendText(chat, DECRYPT_APOLOGY)];
          } else if !msg.isSystem {
            var streams: seq<InputStream> := [];
            match msg.file {
              case Unreadable =>
                return;
              case Readable(data) =>
                var mediaType := MediaTypeOr(parseMediaType, msg.fileMime);
                streams := streams + [InputStream(data, mediaType)];
              case NoFile =>
            }
            assert streams == Streams(parseMediaType, msg);
            HandleCommand(chat, text, streams, user);
            assert outbox == seen + ReplyActions(engine, parseMediaType, msg, user);
          }
        }
        AppendAssoc(old(outbox), [MarkSeen(id)], ReplyActions(engine, parseMediaType, msg, user));
      }
    }

    method HandleCommand(chat: nat, text: string, streams: seq<InputStream>, user: UserContext)
      modifies this
      ensures outbox == old(outbox) + CommandActions(engine, chat, text, streams, user)
    {
      var tokens := engine.tokenize(text);
      var commands := engine.getCommands(tokens, streams);
      if commands == [] {
        outbox := outbox + [SendText(chat, NOT_UNDERSTOOD)];
        return;
      }
      var outputs := match engine.runCommands(commands, streams, user)
        case Ok(output) => output
        case Err(errors) => errors;
      assert CommandActions(engine, chat, text, streams, user) == RenderBlocks(chat, Blocks(outputs));
      for i := 0 to |outputs|
        invariant outbox == old(outbox) + RenderBlocks(chat, Blocks(outputs[..i]))
      {
        ghost var done := RenderBlocks(chat, Blocks(outputs[..i]));
        ghost var next := RenderBlocks(chat, outputs[i].blocks);
        RenderOutput(chat, outputs[i]);
        RenderOutputsStep(chat, outputs, i);
        AppendAssoc(old(outbox), done, next);
      }
      assert outputs[..|outputs|] == outputs;
    }

    method RenderOutput(chat: nat, output: Output)
      modifies this
      ensures outbox == old(outbox) + RenderBlocks(chat, output.blocks)
    {
      for i := 0 to |output.blocks|
        invariant outbox == old(outbox) + RenderBlocks(chat, output.blocks[..i])
      {
        RenderBlock(chat, output.blocks[i]);
        assert output.blocks[..i + 1][..i] == output.blocks[..i];
      }
      assert output.blocks[..|output.blocks|] == output.blocks;
    }

    method RenderBlock(chat: nat, block: Block)
      modifies this
      ensures outbox == old(outbox) + [BlockMessage(chat, block)]
    {
      match block {
        case Comment(text) =>
          outbox := outbox + [SendText(chat, text)];
        case Data(data, mediaType, _) =>
          var text := Decode(data);
          if text.Some? {
            outbox := outbox + [SendText(chat, text.value)];
          } else {
            outbox := outbox + [SendFile(chat, data, mediaType)];
          }
        case Other(_) =>
          outbox := outbox + [SendText(chat, UNIMPLEMENTED)];
      }
    }
  }

  // ---------------------------------------------------------------- properties

  /** Text ending in the decryption-failure marker gets only the apology,
      whatever the engine is and even for a system message. */
  lemma DecryptFailureApology(engine: Engine, parse: string -> Option<MediaType>, store: Store,
                              id: nat, other: Engine)
    requires id in store.messages && store.messages[id].fromId in store.contacts
    requires store.messages[id].text.Some? && EndsWith(store.messages[id].text.value, DECRYPT_FAILURE)
    ensures EventActions(engine, parse, store, IncomingMsg(id))
         == [MarkSeen(id), SendText(store.messages[id].fromId, DECRYPT_APOLOGY)]
    ensures EventActions(other, parse, store, IncomingMsg(id)) == EventActions(engine, parse, store, IncomingMsg(id))
  {
  }

  /** A message without text, or a system message that is not a decryption
      failure, is only marked seen. */
  lemma SilentMessages(engine: Engine, parse: string -> Option<MediaType>, store: Store, id: nat)
    requires id in store.messages
    requires var msg := store.messages[id];
      msg.text.None? || (msg.isSystem && !EndsWith(msg.text.value, DECRYPT_FAILURE))
    ensures EventActions(engine, parse, store, IncomingMsg(id)) == [MarkSeen(id)]
  {
  }

  /** Unless it is left unanswered, an incoming message is answered in its
      sender's chat, after being marked seen. */
  lemma {:induction false} AnsweredInSendersChat(engine: Engine, parse: string -> Option<MediaType>,
                                                  store: Store, id: nat)
    requires id in store.messages
    ensures var actions := EventActions(engine, parse, store, IncomingMsg(id));
      actions[0] == MarkSeen(id) &&
      forall k :: 1 <= k < |actions| ==> !actions[k].MarkSeen? && actions[k].chat == store.messages[id].fromId
  {
    var msg := store.messages[id];
    if msg.fromId in store.contacts && msg.text.Some? && !EndsWith(msg.text.value, DECRYPT_FAILURE)
      && !msg.isSystem && !msg.file.Unreadable? {
      var user := UserContext(Username(store.contacts[msg.fromId]));
      var streams := Streams(parse, msg);
      var commands := engine.getCommands(engine.tokenize(msg.text.value), streams);
      if commands != [] {
        RenderBlocksOnePerBlock(msg.fromId, Blocks(engine.runCommands(commands, streams, user).outputs));
      }
    }
  }

  /** When nothing is resolved the only message is the fixed notice, whatever
      running commands would have given. */
  lemma NotUnderstoodNeverRuns(engine: Engine, chat: nat, text: string, streams: seq<InputStream>,
                               user: UserContext,
                               run: (seq<CommandArgs>, seq<InputStream>, UserContext) -> RunResult)
    requires engine.getCommands(engine.tokenize(text), streams) == []
    ensures CommandActions(engine, chat, text, streams, user) == [SendText(chat, NOT_UNDERSTOOD)]
    ensures CommandActions(engine.(runCommands := run), chat, text, streams, user)
         == CommandActions(engine, chat, text, streams, user)
  {
  }

  /** `Ok` and `Err` are rendered alike. */
  lemma OkErrAlike(engine: Engine, chat: nat, text: string, streams: seq<InputStream>,
                   user: UserContext,
                   run: (seq<CommandArgs>, seq<InputStream>, UserContext) -> RunResult)
    requires forall c, s, u :: run(c, s, u).outputs == engine.runCommands(c, s, u).outputs
    ensures CommandActions(engine.(runCommands := run), chat, text, streams, user)
         == CommandActions(engine, chat, text, streams, user)
  {
  }
}

/** The part of the Yozuk engine and SDK that both bots use. The engine itself
    (tokenizer, command resolution and execution) is not modelled: an `Engine`
    value carries it as three uninterpreted functions, so every property proved
    about a handler holds for whatever the engine answers. */
module YozukSdk {
  import opened Wrappers
  import opened Utf8

  /** A media type in its textual form, for example "image/png". */
  type MediaType = string

  const OCTET_STREAM: MediaType := "application/octet-stream"

  /** An input stream handed to the engine: the bytes and their media type. */
  datatype InputStream = InputStream(data: seq<byte>, mediaType: MediaType)

  /** What the engine is told about the person asking; other fields keep their defaults. */
  datatype UserContext = UserContext(username: Option<string>)

  /** A lexical token and a resolved command are opaque to the bots. */
  datatype Token = Token(text: string)
  datatype CommandArgs = CommandArgs(args: seq<string>)

  /** One renderable unit of output. `Other` stands for every block kind
      besides a comment and data. */
  datatype Block =
    | Comment(text: string)
    | Data(data: seq<byte>, mediaType: MediaType, fileName: string)
    | Other(kind: string)

  datatype Output = Output(blocks: seq<Block>)

  /** `run_commands` answers `Ok(outputs)` or `Err(outputs)`: both carry the
      same shape, which is why both constructors share the destructor. */
  datatype RunResult = Ok(outputs: seq<Output>) | Err(outputs: seq<Output>)

  datatype Engine = Engine(
    tokenize: string -> seq<Token>,
    getCommands: (seq<Token>, seq<InputStream>) -> seq<CommandArgs>,
    runCommands: (seq<CommandArgs>, seq<InputStream>, UserContext) -> RunResult)

  /** The media type of an incoming file: the declared type when there is one
      and the parser accepts it, `application/octet-stream` otherwise. */
  function MediaTypeOr(parse: string -> Option<MediaType>, declared: Option<string>): (m: MediaType)
    ensures declared.Some? && parse(declared.value).Some? ==> m == parse(declared.value).value
    ensures declared.None? || parse(declared.value).None? ==> m == OCTET_STREAM
  {
    match declared
    case Some(ty) => (match parse(ty) case Some(parsed) => parsed case None => OCTET_STREAM)
    case None => OCTET_STREAM
  }

  /** All blocks of a sequence of outputs, output after output. */
  function Blocks(outputs: seq<Output>): seq<Block>
  {
    if outputs == [] then []
    else Blocks(outputs[..|outputs| - 1]) + outputs[|outputs| - 1].blocks
  }

  /** Flattening keeps the order of the outputs. */
  lemma {:induction false} BlocksAppend(a: seq<Output>, b: seq<Output>)
    ensures Blocks(a + b) == Blocks(a) + Blocks(b)
    decreases |b|
  {
    if b == [] {
      assert a + b == a;
    } else {
      var last := |b| - 1;
      assert (a + b)[..|a + b| - 1] == a + b[..last];
      BlocksAppend(a, b[..last]);
    }
  }

  /** The blocks of a prefix grow by the blocks of the next output. */
  lemma BlocksStep(outputs: seq<Output>, i: nat)
    requires i < |outputs|
    ensures Blocks(outputs[..i + 1]) == Blocks(outputs[..i]) + outputs[i].blocks
  {
    assert outputs[..i + 1][..i] == outputs[..i];
  }
}

/**
 * The tool's top level: check the positional arguments, resolve the
 * message type, pick the reader and writer for the direction and framing,
 * and run the transcode loop. Every fatal path ends the process with
 * a diagnostic; the clean end of input ends it successfully.
 */
module Protocat {
  import opened Wrappers
  import opened SearchPath
  import opened Resolve
  import opened Transcode

  /** The flags the loop depends on: -d decode, -l length-delimited, -m maximum message size. */
  datatype Config = Config(decode: bool, delimited: bool, maxSize: int)

  /** How the process ends: normally, or through the fatal logger with its message. */
  datatype Exit = Clean | Fatal(reason: string)

  /** The diagnostic for fewer than two positional arguments. */
  const InvalidArguments: string := "invalid arguments"

  /** The exit status: zero on success, one after the fatal logger. */
  function ExitStatus(e: Exit): (code: int)
    ensures code == 0 <==> e.Clean?
    ensures code == 0 || code == 1
  {
    if e.Clean? then 0 else 1
  }

  function ReaderIsBinary(r: ReaderKind): bool { !r.JsonReader? }
  function WriterIsBinary(w: WriterKind): bool { !w.JsonWriter? }

  /**
   * The reader and writer for a configuration: decoding reads binary and
   * writes JSON, encoding the other way round; the binary side is
   * length-delimited exactly when -l is given; the binary reader gets the
   * -m value unchanged; the JSON writer indents by two spaces and keeps the
   * schema's declared field names.
   */
  function Streams(cfg: Config): (rw: (ReaderKind, WriterKind))
    ensures ReaderIsBinary(rw.0) == cfg.decode && WriterIsBinary(rw.1) == !cfg.decode
    ensures cfg.decode ==> rw.0.maxSize == cfg.maxSize && (rw.0.DelimitedReader? <==> cfg.delimited)
    ensures cfg.decode ==> rw.1 == JsonWriter("  ", true)
    ensures !cfg.decode ==> (rw.1 == DelimitedWriter <==> cfg.delimited)
  {
    if cfg.decode then
      (if cfg.delimited then DelimitedReader(cfg.maxSize) else FullReader(cfg.maxSize), JsonWriter("  ", true))
    else
      (JsonReader, if cfg.delimited then DelimitedWriter else FullWriter)
  }

  /** The exit a loop ending gives. */
  function StopExit(s: Stop): (e: Exit)
    ensures e.Clean? <==> s.Done?
    ensures s.ReadFailed? ==> e == Fatal(s.reason)
    ensures s.WriteFailed? ==> e == Fatal(s.reason)
  {
    match s
    case Done => Clean
    case ReadFailed(r) => Fatal(r)
    case WriteFailed(r) => Fatal(r)
  }

  /**
   * `main` after flag parsing. `args` are the positional arguments: the
   * message name, then the IDL files. `input` is what the reads will
   * produce and `limit` when the output refuses a write; `output` is what
   * reached standard output and `streams` the reader and writer the loop
   * ran with, if it ran.
   */
  method Run<D, M>(
    cfg: Config, args: seq<string>,
    gopathEnv: string, home: string,
    parse: (seq<string>, seq<string>) -> Result<seq<D>, string>,
    find: (D, string) -> Option<M>,
    input: seq<ReadOutcome>,
    limit: WriteLimit)
    returns (exit: Exit, output: seq<Fields>, streams: Option<(ReaderKind, WriterKind)>)
    ensures |args| < 2 ==> exit == Fatal(InvalidArguments) && output == [] && streams.None?
    ensures |args| >= 2 ==>
      var parsed := parse(ImportPaths(gopathEnv, home), args[1..]);
      (parsed.Failure? ==> exit == Fatal(parsed.error) && output == [] && streams.None?) &&
      (parsed.Success? && FirstHit(parsed.value, args[0], find).None? ==>
        exit == Fatal(NotDefinedMessage(args[0])) && output == [] && streams.None?) &&
      (parsed.Success? && FirstHit(parsed.value, args[0], find).Some? ==>
        var t := Transcribe(input, limit, 0);
        exit == StopExit(t.stop) && output == t.written && streams == Some(Streams(cfg)))
    ensures ExitStatus(exit) == 0 <==>
      |args| >= 2 &&
      parse(ImportPaths(gopathEnv, home), args[1..]).Success? &&
      FirstHit(parse(ImportPaths(gopathEnv, home), args[1..]).value, args[0], find).Some? &&
      Transcribe(input, limit, 0).stop.Done?
  {
    if |args| < 2 {
      return Fatal(InvalidArguments), [], None;
    }
    var loaded := LoadMessage(args[1..], args[0], gopathEnv, home, parse, find);
    if loaded.Failure? {
      match loaded.error {
        case ParseFailed(reason) => return Fatal(reason), [], None;
        case NotDefined(message) => return Fatal(message), [], None;
      }
    }
    var message := new DynamicMessage(loaded.value);
    var (readerKind, writerKind) := Streams(cfg);
    var src := new Source(readerKind, input);
    var sink := new Sink(writerKind, limit);
    var stop := Pump(src, message, sink);
    exit := StopExit(stop);
    output := sink.written;
    streams := Some((readerKind, writerKind));
  }
}

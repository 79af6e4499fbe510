/**
 * `loadMessage`: parse the named IDL files with the fallback import paths,
 * then take the message type from the first parsed file, in list order,
 * that defines the requested name. The parser and the per-file message
 * lookup are library code and enter as parameters.
 */
module Resolve {
  import opened Wrappers
  import opened SearchPath

  /** Why no message descriptor could be produced. */
  datatype LoadError =
    | ParseFailed(reason: string)   // the parser's own error; fatal to the process
    | NotDefined(message: string)   // no parsed file defines the name

  /** The text of the error returned when no file defines `name`. */
  function NotDefinedMessage(name: string): string
  {
    "message " + name + " not defined"
  }

  /**
   * The position of the first descriptor that defines `name`, if any:
   * that descriptor has the message and every earlier one does not.
   */
  function FirstHit<D, M>(descriptors: seq<D>, name: string, find: (D, string) -> Option<M>): (r: Option<nat>)
    ensures r.Some? ==> r.value < |descriptors| && find(descriptors[r.value], name).Some?
    ensures r.Some? ==> forall j :: 0 <= j < r.value ==> find(descriptors[j], name).None?
    ensures r.None? <==> forall j :: 0 <= j < |descriptors| ==> find(descriptors[j], name).None?
    decreases |descriptors|
  {
    if descriptors == [] then None
    else if find(descriptors[0], name).Some? then Some(0)
    else
      match FirstHit(descriptors[1..], name, find)
      case None => None
      case Some(k) => Some(k + 1)
  }

  /**
   * `loadMessage`: build the parser's import paths, parse `files`; on a
   * parse failure stop with the parser's error, otherwise scan the parsed
   * files in order and return the message type the first hit yields, or the
   * "not defined" error when none has it.
   */
  method LoadMessage<D, M>(
    files: seq<string>, name: string,
    gopathEnv: string, home: string,
    parse: (seq<string>, seq<string>) -> Result<seq<D>, string>,
    find: (D, string) -> Option<M>)
    returns (r: Result<M, LoadError>)
    ensures var parsed := parse(ImportPaths(gopathEnv, home), files);
      parsed.Failure? ==> r == Failure(ParseFailed(parsed.error))
    ensures var parsed := parse(ImportPaths(gopathEnv, home), files);
      parsed.Success? ==>
        match FirstHit(parsed.value, name, find)
        case Some(k) => r == Success(find(parsed.value[k], name).value)
        case None => r == Failure(NotDefined(NotDefinedMessage(name)))
  {
    var roots := GoPath(gopathEnv, home);
    var importPaths := roots + ["."];
    var parsed := parse(importPaths, files);
    if parsed.Failure? {
      return Failure(ParseFailed(parsed.error));
    }
    var descriptors := parsed.value;
    for i := 0 to |descriptors|
      invariant forall j :: 0 <= j < i ==> find(descriptors[j], name).None?
    {
      var md := find(descriptors[i], name);
      if md.Some? {
        assert FirstHit(descriptors, name, find) == Some(i);
        return Success(md.value);
      }
    }
    return Failure(NotDefined(NotDefinedMessage(name)));
  }
}

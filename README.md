# protocat core, modelled in Dafny

protocat is a pipe filter. It reads protobuf records from standard input and writes
them back out in the other encoding: binary to JSON with `-d`, JSON to binary without it.
The message type is resolved at startup. The tool parses the IDL files named on the
command line and looks up a message name in them. This project models the tool's
own logic in `main.go`:

- **Search path** (`searchpath.dfy`, module `SearchPath`). `gopath()` splits the GOPATH
  value into a directory list. It falls back to `HOME/go` when GOPATH is empty, and
  appends `/src` to every entry in place. The parser's import paths are that list
  followed by `"."`. GOPATH and HOME are parameters, and the host's path-list split
  is modelled as splitting on `:` (the empty string gives the empty list).
- **Message lookup** (`resolve.dfy`, module `Resolve`). `loadMessage` parses the files
  with those import paths. It then scans the parsed file descriptors in order and takes
  the first one that defines the name. If none does, it returns
  `message <name> not defined`. The parser and the per-file lookup (`FindMessage`) are
  function parameters. A parse failure is fatal.
- **Transcode loop** (`transcode.dfy`, module `Transcode`). There is one dynamic message,
  a class with `Reset`. The reader is a sequence of outcomes (record, end of stream, or
  error). The writer is a sink that may refuse a write. The loop reads, dispatches on the
  outcome, writes, resets and repeats. Both directions of `main` run this same loop, and
  `Pump` models both. `Transcribe` is the specification of a run, and the lemmas prove
  the loop's contract. Exactly one output goes out per leading record, in order. The
  message is reset after every accepted write. The loop stops cleanly at the first end
  of stream and fatally at the first read or write error.
- **Top level** (`protocat.dfy`, module `Protocat`). `Run` covers `main` after flag
  parsing: the argument-count check, the lookup, the choice of reader and writer from
  `-d`, `-l` and `-m`, and the loop. It returns the exit and the records written.

`wrappers.dfy` holds the `Option` and `Result` types.

### Behaviour worth noting

- A name defined in several files resolves to the first file in command-line order,
  and ambiguity is never reported (`main.go:46-50`).
- A wrong argument count exits with status 1, like every other fatal error
  (`main.go:70-72`).
- The help text says `-m` is in KiB. The code passes the value to the binary reader
  unchanged (`main.go:59, 85, 87`), and so does the model.

## Model

| member | source | states |
|---|---|---|
| `SearchPath.Split` | main.go:24 | Splitting on one separator yields at least one piece, and no piece contains the separator. |
| `SearchPath.JoinSplit` | main.go:24 | Joining the pieces with the separator gives back the split string exactly, so empty pieces are kept. |
| `SearchPath.SplitList` | main.go:24 | The directory list is empty exactly when GOPATH is empty. Otherwise it joins back to GOPATH with `:`, and no entry contains `:`. |
| `SearchPath.GoPathCases` | main.go:23-35 | A non-empty GOPATH gives one entry per listed directory, that directory plus `/src`, in order. An empty GOPATH with HOME set gives exactly `[HOME + "/go/src"]`. Both empty give `[]`. |
| `SearchPath.GoPath` | main.go:23-35 | The method that rewrites every entry in place in an array returns exactly the specified source-directory list. |
| `SearchPath.ImportPaths` | main.go:39 | The parser's import paths are the source directories followed by `"."` as their last element. |
| `Resolve.FirstHit` | main.go:46-50 | A hit is a descriptor whose lookup yields a message, and no earlier descriptor's lookup does. There is no hit exactly when no descriptor's lookup yields one. |
| `Resolve.LoadMessage` | main.go:37-52 | The parser receives the import paths above. A parse failure is returned with the parser's error. Otherwise the result is the message type of the first descriptor that defines the name, or `message <name> not defined` when none does. |
| `Transcode.DynamicMessage.constructor` | main.go:48 | A new message is bound to its descriptor and is in the zero state. |
| `Transcode.DynamicMessage.Reset` | main.go:100 | After a reset the message holds no field. |
| `Transcode.DynamicMessage.Fill` | main.go:90 | Filling sets the record's fields and keeps the fields the record leaves unset. |
| `Transcode.Source.ReadInto` | main.go:90-96 | A read takes the next outcome, fills the message only when the outcome is a record, and advances the input by one. An exhausted input reports end of stream. |
| `Transcode.Refusal` | main.go:97 | A write fails exactly when it comes at or after the output's refusal point, and then with that refusal's error. |
| `Transcode.Sink.Write` | main.go:97-99 | A write of the message's fields either appends exactly those fields to the output or fails with the output's error and appends nothing. |
| `Transcode.Transcribe` | main.go:89-101 | A run consumes at most the input, writes no more records than it consumes, and ends at a refused write only on a record. |
| `Transcode.WritesLeadingRecords` | main.go:89-101 | Everything written is, in input order, the records at the front of the input, before the first non-record. Every write that went out came before the refusal point. |
| `Transcode.WritesAllWhenAccepted` | main.go:97-100 | When the output accepts as many writes as there are leading records, the loop writes every one of them: one output per successful read. |
| `Transcode.StopsAtFirstNonRecord` | main.go:110-122 | The run ends cleanly exactly when all leading records went out and the next outcome is end of stream or there is none. It fails with a read error exactly when all went out and the next outcome is that error. It fails with a write error exactly when fewer went out, and then the output refused exactly the next write, with its own error. Nothing is read past the outcome that ended the run. |
| `Transcode.Turn` | main.go:90-100 | One pass of the loop body either stops the way the specified run stops, having written nothing, or reads one accepted record, writes exactly it, and resets the message. |
| `Transcode.Pump` | main.go:89-122 | The loop writes and consumes exactly what the specification says and ends the same way. The message is in the zero state before every read. After a clean end or a read error it is zero again. After a refused write it still holds the refused record, because the reset is skipped. |
| `Protocat.Streams` | main.go:78-109 | Decoding reads binary and writes JSON, and encoding does the reverse. The binary side is length-delimited exactly when `-l` is given. The binary reader receives `-m` unchanged. The JSON writer indents by two spaces and keeps the declared field names. |
| `Protocat.StopExit` | main.go:89-122 | Only a clean end of stream exits normally. Read and write errors exit fatally with their own message. |
| `Protocat.ExitStatus` | main.go:70-75 | The process ends with status 0 exactly on a normal exit, and 1 after the fatal logger. `Run` states when that status is 0. |
| `Protocat.Run` | main.go:70-124 | Fewer than two positional arguments give the fatal "invalid arguments". A parse failure or an undefined name is fatal and writes nothing. Otherwise the loop runs with the reader and writer `Streams` picks for the flags, and what reaches standard output and how the process ends are those of the specified run over the input. The exit status is 0 exactly when the arguments suffice, the parse succeeds, the name is found and the run ends at end of stream. |

## Left out

- Flag parsing: `-h` returning early, exit status 2 on a bad flag, and the `-v` logger
  switch (`main.go:55-69`). `Run` takes the parsed configuration and positional arguments.
- The IDL parser (`protoparse`) is a parameter from import paths and files to descriptors
  or an error. Its grammar and import resolution are not modelled.
- The message lookup inside a file descriptor (`FindMessage`) is a parameter. Nested and
  qualified name matching is not modelled.
- The dynamic message's field storage (`protodynamic`) is reduced to a map from field
  number to encoded value. Filling is modelled as a merge into the current state. Under
  that reading, the reset after each write is what keeps one record's fields out of the
  next. Whether the library clears the message itself before filling is not modelled.
- `Transcode.Source.ReadInto`: a failed read leaves the message unchanged. A partial
  fill before a decode error is not modelled.
- The binary framings (varint length prefix, whole-stream read, the size-limit check)
  and the JSON codecs belong to libraries. They appear only as the outcomes a read
  produces and the errors a write meets. The model takes whatever outcome sequence is
  given.
- The output is the sequence of records written, not their bytes or JSON text.
- `Transcode.Sink.Write`: the only writer failure modelled is a refusal point followed by
  refusals. The loop stops at the first refusal and the input is fixed, so this covers
  every failure pattern one run can observe, including a marshalling error that depends
  on the record's content.
- Standard input and output, `os.Getenv`, and the exit itself are parameters and results.

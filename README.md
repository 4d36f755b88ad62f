# Remote administration client — Dafny model

This project models the command-line client that administers a deployed
TouchDevelop backend (`src/remote.ts`). The client routes every request
either through an encrypted tunnel or directly over HTTPS. It builds the
deployment bundle from the compiled scripts, and it prints the shell and
application logs with per-line decoration and console truncation. It reads
the environment configuration and rewrites it from a `VAR=val` token or a
JSON file. It dispatches on the first word of each help line.

Each piece is modelled in the form the source gives it:

- `Transport` (`sendAsync`): pure functions that return the request that
  would be sent, as a value.
- `Bundle` (`buildInstructions`): a method whose loop pushes one file per
  `.js` entry. It is proved against the function `BundleFiles`.
- `Logs` (`showLogs`, `levelToClass`, `logAsync`):
  - `levelToClass` is a pure function.
  - The `forEach` of `showLogs` is a method, proved against the function
    `ShownLogs`.
  - The worker loop of `logAsync` is a method, proved against the function
    `WorkersView`.
- `Config` (`getconfigCoreAsync`, `setconfigAsync`):
  - The folding loop is a method, proved against the function `Unpacked`.
  - The serialising loop is a method that proves the round trip back to the
    map.
  - `setconfigAsync` is a method that returns what it would push.
- `Commands` (`main`): the key that `n.replace(/\s.*/, "")` extracts, and the
  dispatch loop over the command table.

Input and output are abstracted the same way everywhere:

- Lines written with `console.log` are returned as sequences of strings.
- Whatever the source reads from outside becomes a parameter: the
  directory listing with its file texts, the `/getconfig` response, the
  parsed JSON file, `process.argv[2]`, the TTY flag and `td.App`'s level cut
  points.

Three behaviours of the code are easy to miss:

- A JSON file given to `setenv` replaces the whole configuration. Only the
  token form `VAR=null` deletes a key.
- Paths in a bundle are unique only when no two `.js` entries share a name
  and no entry is called `compiled.js`. `BundlePathsUnique` proves the
  conditional claim. `CompiledJsCollides` shows that a listed `compiled.js`
  gives two files at `script/compiled.js`.
- `levelToClass` is defined inside `showLogs` but never called. It is
  modelled on its own, with the cut points as parameters.

## Model

| member | source | states |
|---|---|---|
| Transport.StripLeadingSlashes | src/remote.ts:33 | the result is what is left of the path after a run of slashes, and it does not start with a slash |
| Transport.Route | src/remote.ts:31-50 | the tunnel is used exactly when the target does not start with `https:`, with the normalised path and the data unchanged; otherwise the URL is target + "/" + normalised path, the verb is POST exactly when there is data, `accept-encoding: gzip` is always set, `content-encoding: gzip` and the JSON content type exactly when there is data |
| Transport.StripIdempotent | src/remote.ts:33 | normalising a path twice is normalising it once |
| Transport.LeadingSlashesIgnored | src/remote.ts:31-39 | any number of leading slashes added to a path leads to the same request |
| Transport.RoutedPathHasNoLeadingSlash | src/remote.ts:33-39 | the path seen by the remote end never starts with a slash, on either route |
| Bundle.BuildInstructions | src/remote.ts:57-85 | falsy settings fail with "bad compiler settings"; otherwise the result has empty meta, no error, and the files of `BundleFiles`: one per `.js` entry in listing order, then the manifest, then the stub |
| Bundle.ScriptFilesSelect | src/remote.ts:65-72 | the script files are, in listing order, the inlined `script/<name>` of exactly the entries whose name ends in `.js`, at strictly increasing positions |
| Bundle.ScriptListed | src/remote.ts:65-72 | every `.js` entry of the listing is pushed, inlined under `script/<name>` |
| Bundle.BundleShape | src/remote.ts:65-84 | a bundle has one file per `.js` name plus two, every file carries content and no URL, the script files lie under `script/`, and the manifest and the stub come last |
| Bundle.BundlePathsUnique | src/remote.ts:65-82 | with distinct `.js` names and no entry named `compiled.js`, no two files of a bundle share a path |
| Bundle.CompiledJsCollides | src/remote.ts:66-82 | a listed `compiled.js` gives two files at `script/compiled.js` |
| Bundle.ThreeEntryExample | src/remote.ts:65-82 | `a.js`, `b.js`, `c.txt` give `script/a.js`, `script/b.js`, `package.json`, `script/compiled.js`, in that order |
| Base.IntToString | src/remote.ts:114-117 | the text is decimal digits denoting the number, after a `-` exactly when it is negative, with no leading zero |
| Logs.LevelToClass | src/remote.ts:95-101 | each bucket is chosen exactly when its cut point is the first one the level does not exceed |
| Logs.LevelToClassNames | src/remote.ts:95-101 | `error`, `warning`, `info`, `debug` and `noisy` are each returned exactly for their range of levels |
| Logs.LevelToClassMonotone | src/remote.ts:95-101 | with ordered cut points a lower level never lands in a less severe bucket |
| Logs.BoundariesGoStricter | src/remote.ts:96-100 | a level equal to a cut point lands in the bucket that cut point closes, and one above the last cut point is noisy |
| Logs.RenderLine | src/remote.ts:110-119 | a line is the elapsed prefix, then the category prefix, then the message text unchanged, then the context suffix, each at its own offset |
| Logs.SkippedCategoryElided | src/remote.ts:118 | a category equal to `skipcat` is rendered as if there were none |
| Logs.PlainMessage | src/remote.ts:110-119 | a message without elapsed time, category or context is printed as its bare text |
| Logs.PresentAppend | src/remote.ts:104 | dropping null messages distributes over concatenation, so order is kept |
| Logs.Present | src/remote.ts:104 | the kept messages are exactly the non-null ones, and there are no more of them than messages |
| Logs.ShowLogs | src/remote.ts:103-122 | the printed lines are `ShownLogs`: the non-null messages, truncated on a console |
| Logs.PrintKept | src/remote.ts:104-122 | the `forEach` prints the callback's line for every kept message; on a console it prints the first 30, then the marker once, then nothing |
| Logs.ShownLogsShape | src/remote.ts:104-121 | off a console one line per non-null message; on a console at most 30 message lines, each the rendering of the matching message, followed by the marker exactly when more than 30 remain |
| Logs.LogWorkers | src/remote.ts:137-145 | the output is the header line of each worker followed by its shown log, worker by worker |
| Logs.LogWorker | src/remote.ts:141-143 | one worker prints its header line, then its shown log exactly when it has one |
| Logs.WorkersViewAppend | src/remote.ts:140-144 | the view of two lists of workers is the view of the first followed by the view of the second |
| Logs.WorkersViewLength | src/remote.ts:140-141 | there is at least one line per worker |
| Config.UnpackSettings | src/remote.ts:147-155 | the loop builds the map `Unpacked`, in which a later entry overwrites an earlier one |
| Config.UnpackedKeys | src/remote.ts:150-153 | a name is a key of the unpacked map exactly when some entry carries it |
| Config.UnpackedLastWins | src/remote.ts:151-153 | each name maps to the value of the last entry that carries it |
| Config.Serialise | src/remote.ts:193-196 | the list built from a map unpacks back to that map, repeats no name and has one entry per key |
| Config.ParseFormatted | src/remote.ts:179 | every token `name=value` with a non-empty word name and a value free of line terminators is recognised with that name and value |
| Config.ParseAssignment | src/remote.ts:179 | whatever is recognised is a non-empty word name, `=`, and a value free of line terminators, written out as the argument |
| Config.Apply | src/remote.ts:184-187 | the value `null` removes the key, any other value sets it, and every other key is unchanged |
| Config.ApplyIdempotent | src/remote.ts:184-187 | applying the same token twice is applying it once |
| Config.DeleteAbsentIsNoOp | src/remote.ts:184-185 | deleting an absent key changes nothing |
| Config.SetConfig | src/remote.ts:173-197 | a falsy argument prints the usage line; otherwise the pushed list repeats no name and unpacks to the new configuration: the fetched one with the token applied, or the file's object |
| Config.NewConfigFrame | src/remote.ts:182-190 | a token leaves every other key of the fetched configuration present or absent as it was, with its value unchanged; a file replaces the configuration wholesale |
| Config.OverwriteExample | src/remote.ts:182-196 | `FOO=1` against `FOO=0, BAR=2` gives `FOO=1, BAR=2` |
| Config.DeleteExample | src/remote.ts:182-196 | `FOO=null` against `FOO=1, BAR=2` gives `BAR=2` |
| Commands.CommandKey | src/remote.ts:228 | the key is the text before the first white-space character followed by the help text from the first line terminator after that character on; it is the whole text when there is no white space, and just the first word when no line terminator follows |
| Commands.KeyIsFirstWord | src/remote.ts:228 | on a one-line help text the key is the longest prefix without white space |
| Commands.FindCommand | src/remote.ts:227-233 | the chosen line is the first whose key equals the verb; none is chosen exactly when no key equals it |

## Left out

- Network I/O is not modelled: the tunnel call, the HTTPS round trip and the response status line. `Route` returns the request as a value.
- gzip compression and JSON serialisation are not modelled: the payload's JSON text stays abstract, and the "upload … bytes" diagnostic line is not produced.
- `deployAsync` is only the composition of `BuildInstructions` and `Route`.
- `shellAsync` is `ShowLogs` with `skipcat` "shell".
- `statsAsync`, `workerAsync` and `getconfigAsync` only forward a request and print a JSON response. They are not modelled.
- `restartAsync` only sends an empty object to `/setconfig`. It is not modelled.
- Floating point is not modelled: `elapsed` is an integer or absent (NaN is not represented), and `Math.round(contextDuration)` is an integer input. Numbers are rendered as plain decimal digits at any size, whereas JavaScript switches to exponent form from 10^21 on and loses precision above 2^53.
- The values of `td.App.ERROR`, `WARNING`, `INFO` and `DEBUG` are parameters, because `td.ts` is not part of this model.
- Config.Serialise: the order of `Object.keys` (integer-like keys first, then insertion order) is not modelled. The keys are taken in any order, and the contract states the round trip, distinctness and length, but not the order.
- Config.SetConfig: values in a JSON file are modelled as strings. Non-string JSON values, parse errors and file-read errors are not modelled. In particular a `null` in the file, which the code pushes as a value rather than deleting the key, cannot be expressed.
- The special behaviour of a `__proto__` key in a plain JavaScript object is not modelled.
- `main` is only partly modelled. The environment lookup, `isTTY`, `process.argv`, the usage printing and the literal command table are left out; the table is a parameter of `FindCommand`.
- Exceptions from `readdirSync` and `readFileSync` are not modelled.

# WebModelLoader, modelled in Dafny

`WebModelLoader` is a Unity script. The embedding web page sends it a message. The script cleans
the message and parses it as `{type, id}`. For a `LOAD_MODEL` message it asks the backend for the
model's metadata at `http://127.0.0.1:8000/planos/3d/{id}/modelo`. It then downloads the GLB file
named by the metadata's `url`. It destroys every child of the hosting node and hands the bytes to
the glTF importer. If the import succeeds, it attaches one new child, `ModeloGLB`, that holds the
model.

The project has two parts.

- **Message clean-up** (`string_ops.dfy`, `message_cleanup.dfy`). Pure functions for .NET's
  `Trim`, `StartsWith`, `EndsWith`, `Substring` and `Replace`, and the clean-up chain `Clean` built
  from them. `Clean` returns `None` exactly where the source throws: a message that trims to a
  lone `"`. Lemmas prove the properties the clean-up relies on. The result has no `'`. It is never
  longer than the input. A message that needs no cleaning passes through unchanged. The page's
  wrapped, escaped `LOAD_MODEL` payload cleans to plain JSON.
- **The load pipeline** (`web_model_loader.dfy`, with `decimal.dfy` for `int.ToString()`).
  `Env` gathers every collaborator as an uninterpreted function that returns an abstract outcome:
  - the JSON parser, which returns an object, null, or throws;
  - the two HTTP GETs, which succeed with a body or fail;
  - the `System.Uri` constructor, which accepts the url or throws;
  - the importer's task, which faults, is cancelled, or completes with `true` or `false`.

  `MessageRun`, `RequestModelInfoRun` and `LoadGlbRun` are the specification: they give, for any
  `Env`, the requests made in order, whether the children were destroyed, and how the run ended.
  Their postconditions state the gates. The class `WebModelLoader` holds the hosting node's
  children as a `seq<GameObject>`. Its methods `OnMessageReceived`, `RequestModelInfo` and
  `LoadGlb` run the same steps imperatively. Each is proved equal to its specification function.
  Each also states what happens to the child list:
  - a failed download leaves the list unchanged;
  - once the download succeeds, every old child is destroyed, by a loop over a snapshot of the list;
  - a failure after that leaves no children;
  - a successful import leaves exactly one fresh child named `ModeloGLB`.

Collaborator I/O is abstracted as described: the network, `JsonUtility`, the glTF library and
`System.Uri` are the fields of `Env`. `Debug.Log` output is left out.

Where this model goes beyond a plain reading of the pipeline, it follows the code:
- The code calls `new System.Uri(url)` (Assets/Scripts/WebModelLoader.cs:152) after the children
  are destroyed. A url that downloads but that `Uri` rejects therefore ends the coroutine with
  no children (`UriThrew`).
- A cancelled import task is not `IsFaulted`, and reading its `Result` throws. That ends the
  coroutine with no children too (`ImportCanceled`).
- The trimmed message `"` throws in `Substring(1, -1)`. In the model, `StripWrappingQuotes`
  returns `None` for it, and `MessageRun` returns `Aborted(CleanupThrew)` with no requests.

## Model

| member | source | states |
|---|---|---|
| `StringOps.TrimStart` | Assets/Scripts/WebModelLoader.cs:47 | the result is a suffix of the input that does not start with white space, and everything dropped is white space |
| `StringOps.TrimEnd` | Assets/Scripts/WebModelLoader.cs:47 | the result is a prefix of the input that does not end with white space, and everything dropped is white space |
| `StringOps.Trim` | Assets/Scripts/WebModelLoader.cs:47 | the result is a slice of the input with no white space at either end, and only white space lies outside it on each side |
| `StringOps.TrimIdempotent` | Assets/Scripts/WebModelLoader.cs:47 | trimming an already-trimmed message changes nothing |
| `StringOps.StartsWith` | Assets/Scripts/WebModelLoader.cs:48 | ordinal `StartsWith(p)`: holds exactly when `p` fits in the string and each of its characters matches the string's character at the same position from the start |
| `StringOps.EndsWith` | Assets/Scripts/WebModelLoader.cs:48 | ordinal `EndsWith(p)`: holds exactly when `p` fits in the string and each of its characters matches the string's character at the same position from the start of the last `|p|` characters |
| `StringOps.Substring` | Assets/Scripts/WebModelLoader.cs:49 | `Substring(start, length)` succeeds exactly when start and length are non-negative and the range fits; the result has that length and those characters |
| `StringOps.ReplaceAll` | Assets/Scripts/WebModelLoader.cs:51 | replacing by a text no longer than the pattern never lengthens the string; replacing a one-character pattern by a text without that character removes every occurrence of it |
| `StringOps.ReplaceAllWithoutMatch` | Assets/Scripts/WebModelLoader.cs:51 | `Replace` of a pattern that does not occur leaves the string unchanged |
| `StringOps.ReplaceCharIsMap` | Assets/Scripts/WebModelLoader.cs:51 | replacing one character by another (the `'` to `"` step) equals the position-by-position character map |
| `MessageCleanup.StripWrappingQuotes` | Assets/Scripts/WebModelLoader.cs:48-49 | throws exactly on the lone `"`; if the string has at least two characters and starts and ends with `"`, exactly the first and last characters are removed; otherwise the string is unchanged |
| `MessageCleanup.Unescape` | Assets/Scripts/WebModelLoader.cs:51 | after the two `Replace` calls no `'` is left and the string is no longer than before |
| `MessageCleanup.Clean` | Assets/Scripts/WebModelLoader.cs:47-51 | the clean-up throws exactly when the trimmed message is the lone `"`; otherwise the result contains no `'` and is no longer than the raw message |
| `MessageCleanup.CleanKeepsCleanMessage` | Assets/Scripts/WebModelLoader.cs:47-51 | a message with no white space at its ends, not starting with `"`, and without `\` or `'` comes through the clean-up unchanged |
| `MessageCleanup.UnescapeJoin` | Assets/Scripts/WebModelLoader.cs:51 | backslash-free pieces separated by `\"` become the same pieces separated by `"` |
| `MessageCleanup.CleanWrapped` | Assets/Scripts/WebModelLoader.cs:47-51 | a quoted message whose inner quotes are escaped cleans to its pieces joined by plain quotes |
| `MessageCleanup.PayloadAsSent` | Assets/Scripts/WebModelLoader.cs:47-51 | the pieces of the example payload, joined by `\"`, give the text the page sends between its wrapping quotes |
| `MessageCleanup.PayloadAsIntended` | Assets/Scripts/WebModelLoader.cs:47-51 | the same pieces joined by `"` give `{"type":"LOAD_MODEL","id":5}` |
| `MessageCleanup.CleanWrappedPayload` | Assets/Scripts/WebModelLoader.cs:47-51 | the example pieces, joined by `\"` and wrapped in quotes, clean to the same pieces joined by `"` |
| `MessageCleanup.CleanPayload` | Assets/Scripts/WebModelLoader.cs:47-51 | the wrapped, escaped payload `"{\"type\":\"LOAD_MODEL\",\"id\":5}"` cleans to exactly `{"type":"LOAD_MODEL","id":5}` |
| `Decimal.NatToString` | Assets/Scripts/WebModelLoader.cs:67 | the decimal digits of a natural number: at least one digit, and no leading zero unless the number is 0 |
| `Decimal.IntToString` | Assets/Scripts/WebModelLoader.cs:67 | `int.ToString()`: a leading `-` exactly for negative numbers, followed by digits without a leading zero; a non-negative number starts with `0` only if it is 0 |
| `Decimal.NatRoundTrip` | Assets/Scripts/WebModelLoader.cs:67 | reading the digits back gives the number |
| `Decimal.IntRoundTrip` | Assets/Scripts/WebModelLoader.cs:67 | reading the rendered id back gives the same id |
| `Decimal.IntToStringInjective` | Assets/Scripts/WebModelLoader.cs:67 | two different ids never render as the same string |
| `Loader.MetadataUrl` | Assets/Scripts/WebModelLoader.cs:82 | the metadata URL starts with `http://127.0.0.1:8000/planos/3d/`, ends with `/modelo`, and the id is exactly what lies between them |
| `Loader.MetadataUrlDeterminesId` | Assets/Scripts/WebModelLoader.cs:67-82 | the metadata URL requested for one id is never the URL for another id |
| `Loader.Serves` | Assets/Scripts/WebModelLoader.cs:88-112 | the backend serves `u` for an id only if the metadata GET succeeded, the answer parsed to a model, and `u` is not empty (`string.IsNullOrEmpty` is false) |
| `Loader.ServedUrlUnique` | Assets/Scripts/WebModelLoader.cs:100-117 | an id is served with at most one url, so the GLB download target is determined by the id |
| `Loader.LoadGlbRun` | Assets/Scripts/WebModelLoader.cs:123-174 | the requests are exactly one GLB download from `url`, followed by one import exactly when the download succeeds and `new System.Uri(url)` does not throw (no retries); the children are destroyed exactly when the download succeeds; the model loads exactly when, in addition, the task completes with `true`; every other ending is an abort, and each abort reason (failed download, `Uri` throwing, faulted, cancelled or `false` task) holds exactly in its own case |
| `Loader.RequestModelInfoRun` | Assets/Scripts/WebModelLoader.cs:80-118 | the first request is the metadata GET to the fixed URL template; a GLB download from `u` happens exactly when the backend's answer parses to a model whose url is `u` and `u` is non-empty, and it is the second request; from there the run is `LoadGlbRun` of `u`, so the children are destroyed exactly when that download succeeds; when no url is served (failed GET, parse that throws or gives null, null or empty url) the only request is the metadata GET, nothing is destroyed and the run aborts, with a transport failure exactly when the GET failed and a parse failure exactly when parsing threw |
| `Loader.MessageRun` | Assets/Scripts/WebModelLoader.cs:40-74 | a message that trims to `"` takes the exception path with no request; a request is made exactly when the cleaned message parses to a non-null message whose type is `LOAD_MODEL`, and the first request is the metadata GET for that message's id in decimal, and the run is then `RequestModelInfoRun` of that id; a parse that throws, a null message and a type other than `LOAD_MODEL` each end without requests, with their own outcome; with no request, nothing is destroyed and nothing loads |
| `Loader.GlbOnlyFromServedUrl` | Assets/Scripts/WebModelLoader.cs:55-117 | over the whole pipeline, a GLB is downloaded from `u` only after a LOAD_MODEL message whose id the backend answers with url `u` |
| `Loader.ServedUrlIsDownloaded` | Assets/Scripts/WebModelLoader.cs:64-174 | conversely, a LOAD_MODEL message whose id the backend answers with url `u` downloads `u` as the second request; the children are destroyed exactly when that download succeeds, and the model loads exactly when the `Uri` parses and the import completes with `true` |
| `Loader.ImportFalseEmpties` | Assets/Scripts/WebModelLoader.cs:143-167 | after a served LOAD_MODEL message whose GLB downloads and whose import completes with `false`, the children have been destroyed and the run ends `ImportRejected` (with `OnMessageReceived`'s ensures, no children remain) |
| `Loader.GameObject.constructor` | Assets/Scripts/WebModelLoader.cs:173 | `new GameObject(name)` gives a live object with that name |
| `Loader.WebModelLoader.Destroy` | Assets/Scripts/WebModelLoader.cs:145 | the child is marked destroyed and the child list becomes the old list without it; the remaining children stay alive and distinct |
| `Loader.WebModelLoader.DestroyChildren` | Assets/Scripts/WebModelLoader.cs:143-146 | after the loop the child list is empty and every former child is destroyed |
| `Loader.WebModelLoader.LoadGlb` | Assets/Scripts/WebModelLoader.cs:123-186 | behaves as `LoadGlbRun`; a failed download leaves the children unchanged; after a successful download every old child is destroyed; any later failure leaves zero children; success leaves exactly one fresh child named `ModeloGLB` |
| `Loader.WebModelLoader.RequestModelInfo` | Assets/Scripts/WebModelLoader.cs:80-118 | behaves as `RequestModelInfoRun`, with the same child-list guarantees as `LoadGlb` (unchanged when nothing was downloaded) |
| `Loader.WebModelLoader.OnMessageReceived` | Assets/Scripts/WebModelLoader.cs:40-74 | behaves as `MessageRun`, with the same child-list guarantees; a message that is not a LOAD_MODEL request leaves the children unchanged |

## Left out

- Networking (`UnityWebRequest`, `DownloadHandlerBuffer`) is I/O. Each GET is an uninterpreted function `Env.getText` / `Env.getBytes` that returns a body or a failure.
- `JsonUtility.FromJson` is a foreign parser. It is the uninterpreted `Env.parseMessage` / `Env.parseModelInfo`, which returns an object, null, or an exception. A null `type` field is modelled as a string that is not `LOAD_MODEL`, which the code treats the same way.
- GLTFast (`GltfImport.LoadGltfBinary`, `GameObjectInstantiator`, `InstantiateMainScene`) is a foreign library. Only how the import task ends is modelled, as `Env.loadGltfBinary`. The scene built under `ModeloGLB`, and the ignored result of `InstantiateMainScene`, are not modelled.
- `new System.Uri(url)` is the uninterpreted `Env.uriParses`, which holds when the constructor does not throw (a relative or malformed url makes it throw).
- Coroutines, `yield return`, `WaitUntil` and the async task are run as one sequential call. An import task that never completes hangs the source, and that case is not modelled.
- Overlapping loads are left out. The code does not guard against them, and they are a concurrency issue.
- Unity's `Destroy` takes effect at the end of the frame. Here it removes the child at once. The loop walks a snapshot of the list, so every original child is destroyed either way.
- `Debug.Log` / `Debug.LogError` output is left out. The `Abort` value names the failure the log would report.
- The commented-out centering call is left out.
- `StringOps.StartsWith` / `StringOps.EndsWith` compare ordinally. .NET's `StartsWith(string)` and `EndsWith(string)` are culture-sensitive, so characters that the culture ignores (such as zero-width ones) could change their answer. That case is not modelled.
- .NET strings are sequences of UTF-16 code units, while a Dafny `char` is a Unicode scalar value. Every pattern, every white-space character and every index the clean-up uses lies in the Basic Multilingual Plane, so this changes nothing except `Substring` indices in messages containing characters outside it, which are counted as one `char` here and as two code units in .NET; the wrapping quotes are at the ends either way.
- `StringOps.IsWhite` is the set `Char.IsWhiteSpace` accepts: U+0009–U+000D, U+0020, U+0085, U+00A0, U+1680, U+2000–U+200A, U+2028, U+2029, U+202F, U+205F and U+3000. Nothing depends on it beyond `"`, `'`, `\` and `{` not being white space.
- `Decimal.IntToString` assumes the culture's negative sign is `-`.
- A null `message` (a `NullReferenceException` in `Trim`, caught by the same handler) is not modelled, because strings here cannot be null.
- Logging the raw payload in the `catch` block is left out.

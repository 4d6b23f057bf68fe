# Phase: a Dafny model of the receipt SDK, the job protocol and the boot-artifact provider

Phase has two halves, and this project models the decision logic of both.

- **The PHP SDK** runs a WASM module and returns an execution receipt.
  - `Receipt`: construction defaults, the JSON round trip, the local-execution sentinel and `verify`.
  - `Result`: accessors.
  - `Manifest`: defaults, setters, JSON and the `sha256:` module hash.
  - `Client`: option merge and mode dispatch, plus `createJob`.
  - `Crypto`: the canonical message `version|module_hash|exit_code|wall_time_ms|timestamp` and the key and signature format checks before a hash-then-verify.
  - `LocalTransport`: the `extractWasmOutput` line filter, plus the receipt that `execute` builds from a subprocess run.
- **The Rust daemon** covers four areas.
  - WASM jobs: the placeholder `Receipt` and the `JobManifest`.
  - The job protocol: `JobRequest` validation and its base64 module field, `ExecutionHandler::execute_job` and the matching rule of `handle_job_offer`.
  - The boot-artifact provider:
    - configuration and architecture aliases;
    - the manifest validators and builder;
    - manifest hashing and signing;
    - the manifest generator;
    - the artifact store, with its path guard, filename search and hash cache;
    - the HTTP range parser and the artifact, health and manifest handlers;
    - the DHT record, the metrics counters and the mDNS TXT records.
  - The two boot-time tools:
    - `phase_verify`: the rollback check, public-key parsing and the first-valid-signature loop;
    - `phase_fetch`: the artifact selector, the mirror/retry state machine with exponential back-off, and the size and hash acceptance rule.

The model follows the source file by file, with one module per file. Pure code becomes datatypes and functions. Code that updates state in place becomes classes and methods:
- `Manifest` setters;
- the Rust receipt's `sign`;
- `ManifestBuilder`;
- the artifact store's hash cache;
- the metrics counters;
- the fetch loops.

Each method is proved against a specification function, and lemmas prove what the source promises about those functions.

Nothing the system calls into is implemented. Each such primitive is a parameter of the operations that use it:
- SHA-256 (FIPS 180-4), Ed25519 (RFC 8032) and the UTF-8 encoding are fields of `Primitives.Suite`. The properties proofs rely on appear as hypotheses of the lemmas that need them: output sizes, honest signatures verify, no forgery over digests, and the absence of a collision between two named inputs.
- The JSON text codec (`json_encode`/`json_decode`, serde) is a `Json.Codec`, with a faithfulness predicate as the hypothesis of the round-trip lemmas.
- The file system is a `FileSystems.FileSystem`, a map of files and directories.
- HTTP downloads are a function from a URL and an attempt number to a transfer outcome.
- The subprocess of `LocalTransport` is a process oracle.
- Clocks are integer parameters.

Hex, base64 (section 4 of RFC 4648), decimal rendering and Rust's `u64` parsing are implemented, with their round trips proved.

## Model

| member | source | states |
|---|---|---|
| SdkReceipt.Construct | php-sdk/src/Receipt.php:18-27 | a decoded value that is not an array is a `TypeError`; a constructed receipt takes each of the five required fields from its key, converted as PHP converts a value assigned to a typed property (a numeric string gives its number), and a missing `node_pubkey` or `signature` defaults to the empty string |
| SdkReceipt.NumericStringsExample | php-sdk/src/Receipt.php:20-26 | the object with `exit_code` " 0", `wall_time_ms` "12 " and `timestamp` "1e3" constructs a receipt with 0, 12 and 1000 |
| SdkReceipt.FromJson | php-sdk/src/Receipt.php:35-43 | text the JSON decoder refuses throws `InvalidArgumentException` before any field is read; decodable text constructs the receipt from the decoded value |
| SdkReceipt.ToJsonValue | php-sdk/src/Receipt.php:71-82 | `toJson` encodes an object whose keys are exactly the seven fields, in declaration order |
| SdkReceipt.ToJson | php-sdk/src/Receipt.php:71-82 | through a faithful codec, the text decodes to the seven-key object |
| SdkReceipt.ReadsOfToJsonValue | php-sdk/src/Receipt.php:18-27 | reading each key of the encoded object gives back that field, including the two defaulted ones |
| SdkReceipt.ReceiptMember | php-sdk/src/Receipt.php:71-82 | each key of the encoded object reads back its own value, because the seven keys are distinct |
| SdkReceipt.ReceiptKeysDistinct | php-sdk/src/Receipt.php:73-81 | the seven keys `toJson` writes are pairwise distinct |
| SdkReceipt.FromJsonToJson | php-sdk/src/Receipt.php:35-82 | `fromJson(toJson(r))` reproduces every field of `r` when the JSON codec decodes what it encodes |
| SdkReceipt.CreateMock | php-sdk/src/Receipt.php:53-64 | a mock receipt has version "0.1", the given hash, exit code and wall time, the clock's time as timestamp, `node_pubkey` "local_execution" and signature "unsigned" |
| SdkReceipt.CallGetter | php-sdk/src/Receipt.php:102-104 | of the getter names (`get` followed by a property), only `getExitCode`, `getWallTimeMs` and `getTimestamp` are defined, each returning its field; any other getter, such as `getNodePubkey`, is an undefined-method error |
| SdkReceipt.Verify | php-sdk/src/Receipt.php:90-99 | `verify` is true exactly for a local-execution receipt, whatever the key argument; every other receipt throws `RuntimeException` |
| SdkReceipt.MockVerifies | php-sdk/src/Receipt.php:53-95 | every mock receipt verifies, for any key argument |
| SdkResult.Result.ExitCode | php-sdk/src/Result.php:46-49 | `exitCode()` is the receipt's exit code, so it is 0 exactly when the receipt reports success |
| SdkResult.Result.IsSuccess | php-sdk/src/Result.php:66-69 | `isSuccess()` holds exactly when `exitCode()` is 0 |
| SdkReceipt.Receipt.IsSuccess | php-sdk/src/Receipt.php:102-105 | `isSuccess()` holds exactly when `getExitCode()` returns 0 |
| SdkCrypto.DecimalHasNoBar | php-sdk/src/Crypto.php:62-69 | a `%d` rendering never contains the bar separator |
| SdkCrypto.CanonicalMessage | php-sdk/src/Crypto.php:59-69 | the message is the five fields, the three numbers in decimal, joined by the bar character |
| SdkCrypto.CanonicalMessageFields | php-sdk/src/Crypto.php:59-70 | when version and hash contain no bar character, splitting the canonical message on the bar character gives back exactly the five fields in order, integers in decimal |
| SdkCrypto.JoinFive | php-sdk/src/Crypto.php:62-63 | the format string is the five parts joined by the bar character |
| SdkCrypto.CanonicalMessageInjective | php-sdk/src/Crypto.php:59-70 | for receipts whose version and hash contain no bar character, equal canonical messages mean equal version, hash, exit code, wall time and timestamp |
| SdkCrypto.CanonicalMessageAmbiguous | php-sdk/src/Crypto.php:59-70 | a bar character inside the version or hash lets two different receipts share one canonical message |
| SdkCrypto.VerifySignature | php-sdk/src/Crypto.php:81-103 | a public key that is not 64 hex digits throws "Invalid public key format" first; then a signature that is not 128 hex digits throws "Invalid signature format"; otherwise the result is the verifier's answer on the SHA-256 of the message |
| SdkCrypto.SignedMessageVerifies | php-sdk/src/Crypto.php:81-103 | a signature made with a key over SHA-256 of the message verifies against that key's hex public key |
| SdkCrypto.OtherMessageFails | php-sdk/src/Crypto.php:81-103 | with an unforgeable scheme, a signature over one message returns false (not an exception) for a message with a different digest |
| SdkCrypto.VerifyReceiptAsWrittenThrows | php-sdk/src/Crypto.php:17-20 | `verifyReceipt` as written always fails at its first line, since `Receipt` has no `getNodePubkey` method |
| SdkCrypto.VerifyReceipt | php-sdk/src/Crypto.php:17-51 | an empty public key (PHP `empty`, so also "0") throws "Receipt has no public key"; then an empty signature throws "Receipt has no signature"; otherwise the receipt's canonical message goes through the same checks as `verifySignature` |
| SdkCrypto.SignedReceiptVerifies | php-sdk/src/Crypto.php:17-70 | a receipt carrying its signer's hex public key and a signature over its canonical message verifies |
| SdkCrypto.TamperedReceiptFails | php-sdk/src/Crypto.php:17-70 | a receipt whose fields differ from the ones signed (so its digest differs) does not verify |
| SdkCrypto.MockReceiptRejected | php-sdk/src/Crypto.php:32-37 | a mock receipt's "local_execution" key is not hex, so `verifyReceipt` throws "Invalid public key format" |
| Digests.TaggedDigest | php-sdk/src/Manifest.php:34 | the module hash is "sha256:" followed by lowercase hex that decodes to the SHA-256 of the bytes |
| Digests.TaggedDigestLength | php-sdk/src/Manifest.php:34 | with a 32-byte digest the hash text is the prefix plus 64 hex digits |
| Digests.TaggedDigestInjective | php-sdk/src/Manifest.php:34 | equal hash texts come only from equal digests |
| Digests.HashInChunks | daemon/src/provider/artifacts.rs:142-159 | reading the file 8192 bytes at a time and feeding every chunk to the hasher gives the tagged digest of the whole content |
| SdkManifest.Parse | php-sdk/src/Manifest.php:52-58 | `module_hash` is required (a missing or null one is a `TypeError`); each other property takes its default when its key is missing or null and the converted value otherwise; a value the typed property refuses is a `TypeError` |
| SdkManifest.ParseJson | php-sdk/src/Manifest.php:45-51 | text the decoder refuses throws `InvalidArgumentException` with the "Invalid JSON: " prefix; otherwise the decoded value is parsed |
| SdkManifest.Encode | php-sdk/src/Manifest.php:66-75 | `toJson` writes exactly the five keys in declaration order |
| SdkManifest.Manifest.ToJson | php-sdk/src/Manifest.php:66-75 | through a faithful codec, the text decodes to the five-key object |
| SdkManifest.ManifestKeysDistinct | php-sdk/src/Manifest.php:68-74 | the five keys `toJson` writes are pairwise distinct |
| SdkManifest.ParseEncode | php-sdk/src/Manifest.php:45-75 | parsing the array `toJson` encodes gives back all five properties |
| SdkManifest.ParsePresent | php-sdk/src/Manifest.php:52-56 | properties present with values of their own types are taken as they are |
| SdkManifest.ParseJsonOfEncoding | php-sdk/src/Manifest.php:45-75 | `fromJson(toJson(m))` equals `m` in every property when the codec decodes what it encodes |
| SdkManifest.ParseHashOnly | php-sdk/src/Manifest.php:10-14 | an object holding only `module_hash` gives version "0.1", 1 core, 128 MB and 300 s |
| SdkManifest.Manifest.constructor | php-sdk/src/Manifest.php:10-19 | a fresh manifest holds the given hash and the four defaults |
| SdkManifest.Manifest.FromWasmFile | php-sdk/src/Manifest.php:27-37 | a path that is neither a file nor a directory throws "WASM file not found: " with the path; a file gives a new manifest with the tagged SHA-256 of its bytes and the defaults; a directory gives the tagged SHA-256 of empty content |
| SdkManifest.Manifest.FromJson | php-sdk/src/Manifest.php:45-59 | succeeds exactly when the specification `ParseJson` does, with the same properties or the same error |
| SdkManifest.Manifest.SetCpuCores | php-sdk/src/Manifest.php:83 | changes the core count and no other property |
| SdkManifest.Manifest.SetMemoryMb | php-sdk/src/Manifest.php:84 | changes the memory and no other property |
| SdkManifest.Manifest.SetTimeoutSeconds | php-sdk/src/Manifest.php:85 | changes the timeout and no other property |
| SdkClient.MergeOptions | php-sdk/src/Client.php:25-28 | the merged options hold every caller key with the caller's value, and the defaults `mode` "local" and `plasmd_path` "plasmd" where the caller gave none |
| SdkClient.New | php-sdk/src/Client.php:23-36 | mode "local" builds a local transport on the configured path (a path that is not a string is a `TypeError`); mode "remote" throws `RuntimeException`; any other mode throws `InvalidArgumentException` naming it |
| SdkClient.NewWithDefaults | php-sdk/src/Client.php:23-36 | with no options the client runs locally through "plasmd" |
| SdkClient.NewWithPath | php-sdk/src/Client.php:25-32 | a caller's `plasmd_path` alone gives a local transport on that path |
| SdkClient.NewRefusesUnknownMode | php-sdk/src/Client.php:34 | any mode other than "local" and "remote" is refused at construction with the mode in the message |
| SdkClient.Job.constructor | php-sdk/src/Job.php:16-23 | a job stores its transport, its module path and its manifest |
| SdkClient.Job.WithCpu | php-sdk/src/Job.php:31-35 | the job's manifest changes only its core count |
| SdkClient.Job.WithMemory | php-sdk/src/Job.php:43-47 | the job's manifest changes only its memory limit |
| SdkClient.Job.WithTimeout | php-sdk/src/Job.php:55-59 | the job's manifest changes only its timeout |
| SdkClient.Job.Submit | php-sdk/src/Job.php:67-81 | `submit`/`wait` run the job's module on its transport: a start failure throws, otherwise the result carries the extracted output, the error stream and a local receipt for the manifest's module hash and the exit status |
| SdkClient.CreateJob | php-sdk/src/Client.php:44-47 | a module path that is neither a file nor a directory throws "WASM file not found: "; otherwise a new job bound to the client's own transport, with the manifest built from the path (the file's digest, or the digest of empty content for a directory) |
| PhpErrors.Interpolate | php-sdk/src/Client.php:34 | a string interpolates as itself and an array as "Array" |
| LocalTransport.SgrParamsEnd | php-sdk/src/Transport/LocalTransport.php:92 | the `[0-9;]*` run starting at a position ends at the first character that is neither a digit nor `;` |
| LocalTransport.SgrLength | php-sdk/src/Transport/LocalTransport.php:92 | a non-zero match length covers exactly `ESC [`, digits and `;`, and a final `m`; text not starting with `ESC` matches nothing |
| LocalTransport.StripSgr | php-sdk/src/Transport/LocalTransport.php:92 | removing colour codes never lengthens the text |
| LocalTransport.StripSgrPlain | php-sdk/src/Transport/LocalTransport.php:92 | text without an escape character is left unchanged |
| LocalTransport.StripSgrCode | php-sdk/src/Transport/LocalTransport.php:92 | every `ESC [ params m` code is removed entirely, whatever digits and `;` it holds |
| LocalTransport.SgrParamsEndOfRun | php-sdk/src/Transport/LocalTransport.php:92 | the parameter run ends exactly at the first non-parameter character |
| LocalTransport.StripSgrPrefix | php-sdk/src/Transport/LocalTransport.php:92 | text before the first escape passes through unchanged and in place |
| LocalTransport.StripSgrSinglePass | php-sdk/src/Transport/LocalTransport.php:92 | the replacement is a single pass: removing an inner code can expose `ESC [ m`, which stays, and a second pass would remove it |
| LocalTransport.FirstTimestampFrom | php-sdk/src/Transport/LocalTransport.php:106 | the leftmost `\d{4}-\d{2}-\d{2}T` at or after a position, or none at all |
| LocalTransport.TimestampOfSlice | php-sdk/src/Transport/LocalTransport.php:106 | a timestamp inside a slice is a timestamp of the whole line |
| LocalTransport.NoTimestampSlice | php-sdk/src/Transport/LocalTransport.php:106 | a slice of timestamp-free text is timestamp-free |
| LocalTransport.NoTimestampBeforeFirst | php-sdk/src/Transport/LocalTransport.php:106 | the text before the first timestamp holds no timestamp of its own |
| LocalTransport.BeforeTimestamp | php-sdk/src/Transport/LocalTransport.php:106-113 | the lazy `(.*?)` capture: a prefix of the line with no timestamp, followed in the line by a timestamp unless it is the whole line |
| LocalTransport.KeptLines | php-sdk/src/Transport/LocalTransport.php:96-118 | the kept lines are at most as many as the input lines, and none is empty |
| LocalTransport.KeptLinesStep | php-sdk/src/Transport/LocalTransport.php:99-117 | each line, in order, appends its trimmed contribution when that is non-empty and nothing otherwise |
| LocalTransport.LeadingTimestampDropped | php-sdk/src/Transport/LocalTransport.php:101-103 | a line that starts with a timestamp contributes nothing |
| LocalTransport.TrimNoTimestamp | php-sdk/src/Transport/LocalTransport.php:107 | trimming keeps a text free of timestamps |
| LocalTransport.TrimNoNewline | php-sdk/src/Transport/LocalTransport.php:107 | trimming keeps a text free of newlines |
| LocalTransport.LineContentClean | php-sdk/src/Transport/LocalTransport.php:106-116 | a line's contribution holds no timestamp, and no newline when the line had none |
| LocalTransport.NoNewlineInSlice | php-sdk/src/Transport/LocalTransport.php:96 | a slice of text without newlines has none |
| LocalTransport.KeptLinesClean | php-sdk/src/Transport/LocalTransport.php:96-118 | every kept line is free of timestamps and, when split on newlines, of newlines |
| LocalTransport.ExtractedTextLines | php-sdk/src/Transport/LocalTransport.php:96-120 | splitting the returned text on newlines gives back exactly the kept lines, in input order, so the lines are joined by single newlines with no trailing one |
| LocalTransport.EmbeddedTimestampExample | php-sdk/src/Transport/LocalTransport.php:95 | "dlroW ,olleH2025-11-09T04:50:35" contributes "dlroW ,olleH" |
| LocalTransport.ExampleUntrimmed | php-sdk/src/Transport/LocalTransport.php:107 | trimming leaves "dlroW ,olleH" as it is |
| LocalTransport.SkipNonDigit | php-sdk/src/Transport/LocalTransport.php:106 | a position holding no digit starts no timestamp |
| LocalTransport.ExampleFirstTimestamp | php-sdk/src/Transport/LocalTransport.php:95 | in the example line the first timestamp starts at index 12 |
| LocalTransport.ExtractWasmOutput | php-sdk/src/Transport/LocalTransport.php:89-121 | the `foreach` over the lines returns exactly the specification text: colour codes stripped, lines kept as above, joined by newlines |
| LocalTransport.ReadQuoteBody | php-sdk/src/Transport/LocalTransport.php:34 | inside `escapeshellarg`'s quotes, each `'\''` reads back as one quote and everything else literally, up to the closing quote |
| LocalTransport.EscapeShellArg | php-sdk/src/Transport/LocalTransport.php:34 | an escaped argument is enclosed in single quotes |
| LocalTransport.ReadEscapedQuote | php-sdk/src/Transport/LocalTransport.php:34 | inside single quotes, the escape `'\''` reads as exactly one quote and leaves the shell inside quotes again |
| LocalTransport.EscapeShellArgReadBack | php-sdk/src/Transport/LocalTransport.php:34 | the shell reads an escaped argument back as exactly the original text, ending where the quoting ends |
| LocalTransport.StartedStepsProtocol | php-sdk/src/Transport/LocalTransport.php:49-62 | standard input is written exactly when there is input, is closed before either output pipe is read, every pipe is closed, and the process is closed last |
| LocalTransport.Transport.CommandWords | php-sdk/src/Transport/LocalTransport.php:34 | the shell reads the tool path and the module path back exactly from the command, with `2>&1` merging the error stream |
| LocalTransport.Transport.Execute | php-sdk/src/Transport/LocalTransport.php:29-79 | a process that does not start throws "Failed to start plasmd process" after the open; otherwise the pipe steps are the protocol above, and the result carries the extracted output, the error pipe as captured and a mock receipt for the manifest's hash and the exit status |
| LocalTransport.ExecutedReceiptIsLocal | php-sdk/src/Transport/LocalTransport.php:62-78 | the result of a run reports success exactly when the exit status is 0, and its receipt verifies as a local execution |
| WasmReceipt.Encode | daemon/src/wasm/receipt.rs:4-26 | the derived serializer writes one member per field, the seven field names in declaration order |
| WasmReceipt.Receipt.ToJson | daemon/src/wasm/receipt.rs:65-68 | through a faithful codec, the text decodes to the receipt's serialized document |
| WasmReceipt.Decode | daemon/src/wasm/receipt.rs:4-26 | the derived deserializer accepts an object in which each field occurs once with a value of its type (`u32` and `u64` in range), or an array of exactly seven such values in declaration order, and takes each field from its member or position; nothing else decodes |
| WasmReceipt.DecodePositional | daemon/src/wasm/receipt.rs:4-26 | the array of a receipt's encoded values, in declaration order, decodes to that receipt |
| WasmReceipt.DecodeEncode | daemon/src/wasm/receipt.rs:4-26 | deserializing what the serializer writes gives every field back |
| WasmReceipt.EncodedTextFields | daemon/src/wasm/receipt.rs:4-26 | each text field of the serialized object is found under its name |
| WasmReceipt.EncodedNumberFields | daemon/src/wasm/receipt.rs:4-26 | each numeric field of the serialized object is found under its name, within its integer type |
| WasmReceipt.FieldsDistinct | daemon/src/wasm/receipt.rs:4-26 | the seven field names are pairwise distinct |
| WasmReceipt.DecodeOfFields | daemon/src/wasm/receipt.rs:4-26 | an object holding each field under its name deserializes to exactly those fields |
| WasmReceipt.FromJson | daemon/src/wasm/receipt.rs:70-74 | `from_json` succeeds exactly when the text decodes to a value (object or positional array) the deserializer accepts; a failure carries the "Failed to deserialize receipt: " prefix |
| WasmReceipt.FromJsonToJson | daemon/src/wasm/receipt.rs:64-74 | `from_json(to_json(r))` gives back every field, in particular the module hash, exit code and wall time the tests compare |
| WasmReceipt.Verify | daemon/src/wasm/receipt.rs:58-62 | `verify` returns `Ok(true)` for every receipt and every key |
| WasmReceipt.Receipt.New | daemon/src/wasm/receipt.rs:29-47 | a new receipt has version "0.1", the given hash, exit code and wall time, the clock's seconds as timestamp, and empty key and signature |
| WasmReceipt.Receipt.Sign | daemon/src/wasm/receipt.rs:49-56 | `sign` always succeeds, sets the placeholder key and signature, and leaves the other five fields unchanged |
| WasmManifest.New | daemon/src/wasm/manifest.rs:24-34 | a new manifest has version "0.1", the given hash, 1 core, 128 MB and 300 s |
| WasmManifest.Validate | daemon/src/wasm/manifest.rs:36-49 | accepts exactly when cores, memory and timeout are all at least 1; otherwise reports the first failing check, in the order cores, memory, timeout |
| WasmManifest.NewIsValid | daemon/src/wasm/manifest.rs:94-101 | every manifest `new` produces passes `validate` |
| WasmManifest.Encode | daemon/src/wasm/manifest.rs:5-21 | the derived serializer writes the five field names in declaration order |
| WasmManifest.ToJson | daemon/src/wasm/manifest.rs:53-56 | through a faithful codec, the text decodes to the manifest's serialized document |
| WasmManifest.Decode | daemon/src/wasm/manifest.rs:5-21 | the derived deserializer accepts an object in which each field occurs once with a value of its type, or an array of exactly five such values in declaration order, and takes each field from its member or position |
| WasmManifest.DecodePositional | daemon/src/wasm/manifest.rs:5-21 | the array of a manifest's encoded values, in declaration order, decodes to that manifest |
| WasmManifest.DecodeEncode | daemon/src/wasm/manifest.rs:5-21 | deserializing what the serializer writes gives every field back |
| WasmManifest.FieldsDistinct | daemon/src/wasm/manifest.rs:5-21 | the five field names are pairwise distinct |
| WasmManifest.EncodedTextFields | daemon/src/wasm/manifest.rs:5-21 | the version and hash of the serialized object are found under their names |
| WasmManifest.EncodedNumberFields | daemon/src/wasm/manifest.rs:5-21 | the three numeric fields of the serialized object are found under their names, within their integer types |
| WasmManifest.DecodeOfFields | daemon/src/wasm/manifest.rs:5-21 | an object holding each field under its name deserializes to exactly those fields |
| WasmManifest.FromJson | daemon/src/wasm/manifest.rs:58-63 | `from_json` succeeds exactly when the text decodes to a value (object or positional array) the deserializer accepts; a failure carries the "Failed to deserialize manifest: " prefix |
| WasmManifest.FromJsonToJson | daemon/src/wasm/manifest.rs:51-63 | `from_json(to_json(m))` gives back `m`, in particular its hash and core count, and validation answers the same on both |
| Protocol.Validate | daemon/src/network/protocol.rs:164-175 | a request is valid exactly when its job id is non-empty, its module bytes are non-empty and it asks for at least one CPU core; the first failing check, in that order, gives the error text |
| Protocol.ValidateIgnoresOtherFields | daemon/src/network/protocol.rs:164-175 | validation reads only the job id, the module bytes and the CPU count: changing the hash, arguments, memory, timeout, architecture or runtime never changes its verdict |
| Protocol.EncodeRequirements | daemon/src/network/protocol.rs:21-37 | serializing requirements gives an object whose keys are exactly `cpu_cores`, `memory_mb`, `timeout_seconds`, `arch`, `wasm_runtime`, in declaration order |
| Protocol.DecodeRequirements | daemon/src/network/protocol.rs:21-37 | deserialization succeeds exactly when all five fields are present with the right types (numbers within u32/u64, strings), by name in an object or by position in an array of exactly five items |
| Protocol.DecodeRequirementsPositional | daemon/src/network/protocol.rs:21-37 | the array of encoded requirement values, in declaration order, decodes to those requirements |
| Protocol.DecodeEncodeRequirements | daemon/src/network/protocol.rs:21-37 | deserializing serialized requirements gives the same requirements back |
| Protocol.EncodedRequirementsFields | daemon/src/network/protocol.rs:21-37 | each key of serialized requirements reads back as its own field's value |
| Protocol.DecodeRequirementsOfFields | daemon/src/network/protocol.rs:21-37 | any object whose five fields read as a given set of requirements deserializes to those requirements, whatever else it holds |
| Protocol.RequirementsFieldsDistinct | daemon/src/network/protocol.rs:21-37 | the five serialized requirement keys are pairwise distinct |
| Protocol.RequestFieldsDistinct | daemon/src/network/protocol.rs:85-103 | the five serialized request keys are pairwise distinct |
| Protocol.EncodeStrings | daemon/src/network/protocol.rs:97 | the argument list serializes to an array of the same length |
| Protocol.DecodeStrings | daemon/src/network/protocol.rs:97 | an array deserializes to an argument list exactly when every element is a string, and then keeps its length |
| Protocol.DecodeEncodeStrings | daemon/src/network/protocol.rs:97 | deserializing a serialized argument list gives the same list back, in order |
| Protocol.EncodeRequest | daemon/src/network/protocol.rs:85-103 | serializing a request gives an object whose keys are exactly `job_id`, `module_hash`, `wasm_bytes`, `args`, `requirements` |
| Protocol.DecodeWasmBytes | daemon/src/network/protocol.rs:125-143 | the module bytes are read only from a JSON string, and are what standard base64 decoding of that string gives |
| Protocol.DecodeRequest | daemon/src/network/protocol.rs:85-103 | a deserialized request takes its job id, module bytes (base64) and requirements from their keys, or from their positions in an array of exactly five items; without a `wasm_bytes` field deserialization fails |
| Protocol.DecodeRequestPositional | daemon/src/network/protocol.rs:85-103 | the array of a request's encoded values, in declaration order, decodes to that request |
| Protocol.DecodeEncodeRequest | daemon/src/network/protocol.rs:229-253 | deserializing a serialized request gives the same request back, module bytes included |
| Protocol.EncodedRequestFields | daemon/src/network/protocol.rs:85-103 | each key of a serialized request reads back as its field, with the module bytes as their base64 text |
| Protocol.DecodeRequestOfFields | daemon/src/network/protocol.rs:85-103 | any object whose five fields read as a given request deserializes to that request |
| Protocol.RequestJsonRoundTrip | daemon/src/network/protocol.rs:229-253 | through any faithful JSON text codec, a request written to text and read back is the same request |
| Execution.MemoryLimitAsWrittenWraps | daemon/src/network/execution.rs:47-48 | the limit as written, `memory_mb * 1024 * 1024` in u64 arithmetic, is 0 for 2^44 MB |
| Execution.MemoryLimitAsWritten | daemon/src/network/execution.rs:47-48 | the limit as written is `memory_mb` MiB in bytes whenever that fits in 64 bits, and otherwise that product reduced modulo 2^64 |
| Execution.MemoryLimit | daemon/src/network/execution.rs:47-48 | the corrected byte limit exists exactly when `memory_mb` MiB fits in 64 bits |
| Execution.MemoryLimitExact | daemon/src/network/execution.rs:47-48 | when it exists, the corrected limit is a whole number of MiB, equal to `memory_mb`, and agrees with the limit as written |
| Execution.ReceiptFor | daemon/src/network/execution.rs:62-72 | the receipt of a run copies the run's module hash, exit code and wall time, and carries the placeholder key and signature |
| Execution.ResultReceiptReadsBack | daemon/src/network/execution.rs:62-83 | the receipt JSON placed in a job result parses back to that same receipt |
| Execution.ComputeModuleHash | daemon/src/network/execution.rs:87-92 | the module hash is `sha256:` followed by hex text that decodes to the SHA-256 digest of the module bytes |
| Execution.TamperedModuleRejected | daemon/src/network/execution.rs:31-42 | a module whose SHA-256 differs from the one the declared hash was made from fails the hash check |
| Execution.ExecutionHandler.PublicKeyHex | daemon/src/network/execution.rs:95-97 | the public key text is lower-case hex that decodes to the signing key's public key |
| Execution.ExecutionHandler.PublicKeyHexLength | daemon/src/network/execution.rs:112-119 | the public key text of a 32-byte Ed25519 key is 64 characters long |
| Execution.ExecutionHandler.ExecuteJob | daemon/src/network/execution.rs:23-84 | validation failure, then hash mismatch, then an oversized memory limit each stop the job before the runtime is called; otherwise the runtime is called once with the module, arguments, byte limit and timeout, a runtime failure is an error, and success gives a result with the request's job id, the run's output and exit code and the serialized receipt |
| Discovery.RuntimePrefix | daemon/src/network/discovery.rs:195 | the requested runtime name is a prefix of the requirement with no `-` in it |
| Discovery.Node.HandleJobOffer | daemon/src/network/discovery.rs:178-233 | the answer carries the offer's job id; the first failing check in the order architecture, runtime, CPU, memory gives the rejection reason with its text; an acceptance carries the clock's seconds and the node's peer id |
| Discovery.AcceptedIffCanRun | daemon/src/network/discovery.rs:178-233 | an offer is accepted exactly when the architecture matches, the runtime is supported and both CPU and memory suffice |
| Discovery.AcceptanceMonotone | daemon/src/network/discovery.rs:204-221 | a node with the same architecture and runtime and at least as many cores and as much memory accepts every offer the smaller node accepts |
| Discovery.EmptyRuntimePrefixPasses | daemon/src/network/discovery.rs:195 | an empty runtime requirement, or one that starts with `-`, passes the runtime check on every node |
| Discovery.RuntimePrefixOfVersioned | daemon/src/network/discovery.rs:195 | a versioned requirement `name-version` asks for `name` |
| Discovery.VersionedRuntimeSupported | daemon/src/network/discovery.rs:195 | a node whose runtime text contains `name` supports every `name-version` requirement |
| Json.PhpGet | php-sdk/src/Receipt.php:20-24 | reading a key of a decoded object finds a value exactly when some member has that name, and the value found is that of a member with that name |
| Json.PhpGetOr | php-sdk/src/Receipt.php:25-26 | `$data[$key] ?? $default` gives the default when the key is missing or null and the stored value otherwise |
| Json.PhpToString | php-sdk/src/Receipt.php:20-24 | a string stored into a `string` property is kept as is; null, arrays and objects are refused |
| Json.PhpToInt | php-sdk/src/Receipt.php:22-24 | an integer stored into an `int` property is kept as is, a boolean gives 1 or 0, a string gives the integer of its leading number (a `TypeError` when it has none), and null, arrays and objects are refused |
| PhpNumbers.NumericIntValue | php-sdk/src/Receipt.php:22-24 | a string gives an integer exactly when it starts, after whitespace, with a number |
| PhpNumbers.DecimalTextReadsBack | php-sdk/src/Receipt.php:22-24 | the decimal text of any integer, after any whitespace and before whitespace or text that cannot continue a number, gives back that integer |
| PhpNumbers.BlankRefused | php-sdk/src/Receipt.php:22-24 | an empty or all-whitespace string is refused |
| PhpNumbers.NonNumericRefused | php-sdk/src/Receipt.php:22-24 | a string whose first non-whitespace character is not a sign, a digit or a point is refused |
| PhpNumbers.PaddedExamples | php-sdk/src/Manifest.php:54-56 | " 0" gives 0, "12 " gives 12, and "12abc" gives its leading 12 |
| PhpNumbers.ExponentExample | php-sdk/src/Manifest.php:54-56 | "1e3" gives 1000 |
| PhpNumbers.IntegralFractionExample | php-sdk/src/Manifest.php:54-56 | "1.0" gives 1 |
| PhpNumbers.TruncationExample | php-sdk/src/Manifest.php:54-56 | "-1.5" gives -1: a fractional value is truncated toward zero |
| PhpNumbers.PointExamples | php-sdk/src/Manifest.php:54-56 | ".5" is a number and gives 0, while a lone "." is refused |
| Json.SerdeField | daemon/src/network/protocol.rs:85-103 | once a struct's value is in object form, serde reads a field only from exactly one member of that name |
| Json.SerdeStruct | daemon/src/network/protocol.rs:85-103 | a derived struct reads an object as it is, and a JSON array only when it holds exactly as many items as the struct has fields, taking them as the fields in declaration order; any other value is refused |
| Json.SerdeStructPositional | daemon/src/wasm/receipt.rs:4-26 | the array of an object's values, in field order, reads as that same object |
| Json.SerdeU32 | daemon/src/network/protocol.rs:21-37 | a `u32` field reads only a value below 2^32 |
| Json.SerdeU64 | daemon/src/network/protocol.rs:21-37 | a `u64` field reads only a value below 2^64 |
| Json.DistinctKeysLookup | php-sdk/src/Receipt.php:71-82 | in an object whose member names are distinct, each member's name occurs once and reads back its own value |
| Json.SerdeFieldOfDistinct | daemon/src/network/protocol.rs:229-253 | in an object whose member names are distinct, serde reads every member's value under its name |
| Strings.StripPrefix | daemon/src/provider/server.rs:152 | `strip_prefix` succeeds exactly when the text starts with the prefix, and the prefix followed by the rest is the text |
| Strings.Split | daemon/src/provider/server.rs:153 | splitting gives at least one part and no part holds the separator |
| Strings.SplitCount | daemon/src/provider/manifest.rs:201-206 | splitting gives one part more than there are separators in the text |
| Strings.SplitJoin | php-sdk/src/Transport/LocalTransport.php:96-120 | splitting a join on a separator no part contains gives the parts back |
| Strings.Trim | php-sdk/src/Transport/LocalTransport.php:96-120 | trimming gives the contiguous slice left after the stripped characters at both ends, and it neither starts nor ends with one |
| Strings.RustTrimLineEnd | daemon/src/provider/mdns.rs:69 | trimming a one-line text followed by a line end gives the line |
| Strings.ToLowerForKeyword | daemon/src/bin/phase_fetch.rs:117 | lower-casing keeps the length and maps each character on its own |
| Strings.LexLessIrreflexive | daemon/src/provider/manifest.rs:149-153 | no timestamp text sorts before itself |
| Strings.LexLessTransitive | daemon/src/provider/manifest.rs:149-153 | the string order is transitive |
| Strings.LexLessTotal | daemon/src/provider/manifest.rs:149-153 | of two different strings, one sorts before the other |
| Numbers.NatToDecimal | daemon/src/network/discovery.rs:209 | decimal text is digits only, without a leading zero except for 0 itself |
| Numbers.IntToDecimal | php-sdk/src/Receipt.php:20-24 | an integer converted to a PHP string is its decimal text, a negative one `-` followed by the decimal text of its magnitude |
| Numbers.DecimalValueOfNatToDecimal | daemon/src/bin/phase_verify.rs:143-146 | reading back decimal text gives the number |
| Numbers.NatToDecimalInjective | daemon/src/network/discovery.rs:209 | distinct numbers print differently |
| Numbers.IntToDecimalInjective | php-sdk/src/Receipt.php:20-24 | distinct integers print differently |
| Numbers.ParseU64 | daemon/src/provider/server.rs:158-167 | `parse::<u64>` only ever gives a value below 2^64 |
| Numbers.ParseU64OfDecimal | daemon/src/provider/server.rs:158-167 | every `u64` in decimal, with or without a leading `+`, parses to itself |
| Numbers.ParseU64Overflow | daemon/src/provider/server.rs:158-167 | decimal text of 2^64 or more does not parse |
| Numbers.ParseU64Rejects | daemon/src/provider/server.rs:158-167 | a text holding a non-digit, other than one leading `+` before digits, does not parse |
| Numbers.WrapU64 | daemon/src/network/execution.rs:48 | u64 arithmetic gives the unique value below 2^64 congruent to the exact result |
| Hex.Encode | daemon/src/provider/signing.rs:30 | hex encoding gives two lower-case hex digits per byte |
| Hex.Decode | daemon/src/provider/signing.rs:58 | decoded hex gives one byte per two characters |
| Hex.DecodeEncode | daemon/src/provider/signing.rs:51-58 | decoding hex-encoded bytes gives the bytes back |
| Hex.EncodeDecode | daemon/src/provider/signing.rs:58 | lower-case hex that decodes re-encodes to the same text |
| Hex.EncodeInjective | daemon/src/provider/signing.rs:30 | distinct byte strings have distinct hex texts |
| Hex.DecodeSucceeds | daemon/src/bin/phase_verify.rs:268-270 | hex decoding succeeds exactly on an even number of hex digits of either case |
| Base64.Encode | daemon/src/network/protocol.rs:129-134 | base64 text comes in whole groups of four characters, at least one group for non-empty bytes |
| Base64.EncodeAlphabet | daemon/src/network/protocol.rs:129-134 | encoded text uses only the standard alphabet and `=` |
| Base64.EncodeLength | daemon/src/network/protocol.rs:129-134 | encoded text is four characters for every started group of three bytes |
| Base64.EncodeInjective | daemon/src/network/protocol.rs:129-134 | distinct byte strings have distinct base64 texts |
| Base64.DecodeEncode | daemon/src/network/protocol.rs:136-142 | decoding base64-encoded bytes gives the bytes back |
| Base64.Decode | daemon/src/network/protocol.rs:136-142 | only text in whole groups of four decodes, and non-empty text decodes to at least one byte |
| Base64.DecodeLength | daemon/src/network/protocol.rs:136-142 | decodable text comes in whole groups of four characters, as many groups as started groups of three decoded bytes |
| ProviderConfig.Default | daemon/src/provider/config.rs:98-107 | the default configuration is disabled, binds `0.0.0.0` on port 8080, serves the `stable` channel, and takes the artifact directory and architecture from the platform |
| ProviderConfig.BindAddress | daemon/src/provider/config.rs:112-114 | the address is the bind host, a `:` and the port in decimal |
| ProviderConfig.BindAddressParts | daemon/src/provider/config.rs:112-114 | the bind address is the host text, a `:`, and the port in decimal, which parses back to the port |
| ProviderConfig.BindAddressExample | daemon/src/provider/config.rs:160-168 | host `127.0.0.1` with port 9090 gives `127.0.0.1:9090` |
| ProviderConfig.NormalizeArch | daemon/src/provider/config.rs:127-133 | `arm64` and `amd64` are never a normalized name, and any other name is left unchanged |
| ProviderConfig.NormalizeArchIdempotent | daemon/src/provider/config.rs:127-133 | normalizing twice is the same as normalizing once |
| ProviderConfig.ArchAliases | daemon/src/provider/config.rs:136-145 | the aliases of a name start with the name itself, and there are at most two |
| ProviderConfig.AliasesNormalizeAlike | daemon/src/provider/config.rs:136-145 | every alias normalizes to the same name as the architecture asked for, and a name outside the two known pairs has only itself as alias |
| ManifestSigning.ComputeFileHash | daemon/src/provider/signing.rs:11-31 | a path that is not a readable file is an error; otherwise the result is `sha256:` and the hex digest of the whole file |
| ManifestSigning.ComputeManifestHash | daemon/src/provider/signing.rs:34-47 | the manifest hash is `sha256:` and hex text that decodes to the digest of the manifest serialized without its signatures |
| ManifestSigning.ManifestHashIgnoresSignatures | daemon/src/provider/signing.rs:34-47 | replacing the signature list never changes the manifest hash |
| ManifestSigning.HashBytes | daemon/src/provider/signing.rs:57-59 | stripping `sha256:` and hex-decoding the manifest hash always succeeds and gives the raw digest |
| ManifestSigning.KeyId | daemon/src/provider/signing.rs:50-52 | the key id is hex text that decodes to the public key, 64 characters for a 32-byte key |
| ManifestSigning.SignManifest | daemon/src/provider/signing.rs:55-75 | signing appends exactly one signature and changes nothing else; the new entry is `ed25519`, carries the signer's key id and the given time, and its hex decodes to the signature of the digest of the unsigned manifest |
| ManifestSigning.FindByKeyId | daemon/src/provider/signing.rs:85-89 | the search finds nothing exactly when no signature has that key id, and otherwise finds the first one that has it |
| ManifestSigning.VerifyManifestSignature | daemon/src/provider/signing.rs:78-104 | no signature for the key is the "No signature found" error; otherwise verification gives a verdict exactly when the signature is hex of 64 bytes, and the verdict is the Ed25519 check of that signature over the digest of the unsigned manifest |
| ManifestSigning.AppendedSignatureFound | daemon/src/provider/signing.rs:85-89 | a signature appended under a key id no earlier entry uses is the one found for that id |
| ManifestSigning.SignThenVerify | daemon/src/provider/signing.rs:144-169 | a manifest signed with a key verifies as true under that key's public key |
| ManifestSigning.TamperedManifestRejected | daemon/src/provider/signing.rs:172-197 | carrying the signatures over to a manifest whose content digest differs makes verification false |
| ManifestSigning.WrongKeyIsError | daemon/src/provider/signing.rs:200-222 | verifying under a key that signed nothing is an error, not a false verdict |
| ProviderManifest.ValidateArtifact | daemon/src/provider/manifest.rs:181-226 | an empty file name is the first error, a zero size the second, and every later defect is an invalid-hash error |
| ProviderManifest.ValidateArtifactAccepts | daemon/src/provider/manifest.rs:181-226 | an artifact with a file name, a non-zero size and a hash `algorithm:digest`, non-empty parts without `:` and a hex digest, is valid |
| ProviderManifest.ValidateArtifactShape | daemon/src/provider/manifest.rs:181-226 | a valid artifact has a file name, a non-zero size and a hash made of exactly two `:`-separated parts of the required shape |
| ProviderManifest.SplitTwo | daemon/src/provider/manifest.rs:201-206 | splitting `x:y` on `:` when neither part holds `:` gives exactly the two parts |
| ProviderManifest.IsValidIso8601 | daemon/src/provider/manifest.rs:378-389 | a timestamp is accepted exactly when it holds a `-` and a `T` or `t`, so the emptiness test adds nothing and an accepted text has at least two characters |
| ProviderManifest.Iso8601Examples | daemon/src/provider/manifest.rs:541-548 | the timestamp check accepts the two full timestamps of the tests and refuses the empty text, a bare date and `invalid` |
| ProviderManifest.FirstInvalidArtifact | daemon/src/provider/manifest.rs:125-131 | no error exactly when every artifact is valid; otherwise the error names an invalid artifact, prefixed by its map key and `: ` |
| ProviderManifest.Validate | daemon/src/provider/manifest.rs:95-146 | the required fields `version`, `channel`, `arch`, `created_at`, `expires_at` are checked in that order, then `manifest_version` must be 1, then a `kernel` artifact must exist, then each artifact is validated, then an invalid `created_at` and after it an invalid `expires_at` fail with `InvalidTimestamp` naming the field and its value; success means exactly the validity predicate over every field, artifact and timestamp |
| ProviderManifest.ValidManifestAnyOrder | daemon/src/provider/manifest.rs:125-131 | whatever order the map is visited in, validation succeeds exactly when the required fields are present, the version is 1, the kernel exists, all artifacts are valid and both timestamps pass |
| ProviderManifest.ValidateIgnoresSignatures | daemon/src/provider/manifest.rs:95-146 | the signature list never changes the verdict of validation |
| ProviderManifest.IsExpired | daemon/src/provider/manifest.rs:149-153 | comparing the expiry with the clock text as strings: an expired manifest's expiry differs from the clock text, and an unexpired one's is equal to it or later |
| ProviderManifest.ExpiredStaysExpired | daemon/src/provider/manifest.rs:149-153 | a manifest expired at one time is expired at every later time |
| ProviderManifest.NotExpiredAtExpiry | daemon/src/provider/manifest.rs:149-153 | a manifest is not expired at its own expiry time |
| ProviderManifest.Build | daemon/src/provider/manifest.rs:343-374 | without a version the build fails with a missing `version`; a built manifest has `manifest_version` 1, the builder's channel, architecture, version, artifacts, signatures and provider, and validates; otherwise the build fails exactly as validation of the assembled manifest fails |
| ProviderManifest.ManifestBuilder.constructor | daemon/src/provider/manifest.rs:291-302 | a new builder holds the channel and architecture and nothing else |
| ProviderManifest.ManifestBuilder.SetVersion | daemon/src/provider/manifest.rs:305-308 | sets the version and nothing else |
| ProviderManifest.ManifestBuilder.SetCreatedAt | daemon/src/provider/manifest.rs:311-314 | sets the creation time and nothing else |
| ProviderManifest.ManifestBuilder.SetExpiresAt | daemon/src/provider/manifest.rs:317-320 | sets the expiry time and nothing else |
| ProviderManifest.ManifestBuilder.AddArtifact | daemon/src/provider/manifest.rs:323-326 | adds or replaces the artifact under its name and nothing else |
| ProviderManifest.ManifestBuilder.AddSignature | daemon/src/provider/manifest.rs:329-332 | appends the signature and nothing else |
| ProviderManifest.ManifestBuilder.SetProvider | daemon/src/provider/manifest.rs:335-338 | sets the provider and nothing else |
| ProviderManifest.ManifestBuilder.Finish | daemon/src/provider/manifest.rs:343-374 | building gives what the build function gives for the builder's state |
| ProviderManifest.BuildMinimal | daemon/src/provider/manifest.rs:492-504 | a builder with a channel, an architecture, a version and a valid kernel artifact builds successfully |
| ProviderManifest.BuildWithoutKernel | daemon/src/provider/manifest.rs:516-522 | an otherwise complete builder without a kernel artifact fails with the missing-kernel error |
| Generator.NormalizeArtifactName | daemon/src/provider/generator.rs:111-124 | the canonical name is `kernel`, `initramfs`, `rootfs` or the file name itself, and every `vmlinuz*` or `bzImage*` file is the kernel |
| Generator.NormalizeIdempotent | daemon/src/provider/generator.rs:111-124 | normalizing a canonical name again changes nothing |
| Generator.KeepsName | daemon/src/provider/generator.rs:118-122 | a name other than `kernel` that starts with none of `v`, `b`, `i`, `r` is kept as it is |
| Generator.InitramfsName | daemon/src/provider/generator.rs:114-115 | every `initramfs*` or `initrd*` file is the initramfs |
| Generator.RootfsName | daemon/src/provider/generator.rs:116-117 | every `rootfs*` file is the root file system |
| Generator.AlternativesNormalizeBack | daemon/src/provider/generator.rs:111-124 | each file name the store tries for a canonical artifact normalizes back to that artifact |
| Generator.NormalizeKeepsOtherNames | daemon/src/provider/generator.rs:185-196 | `dtb-rpi4` and `custom-file` keep their names |
| Generator.LastWith | daemon/src/provider/generator.rs:66-77 | finds the last listed artifact with a given canonical name, or reports that none has it |
| Generator.EntriesOf | daemon/src/provider/generator.rs:66-77 | the manifest holds an entry for exactly the canonical names that occur in the listing, each built from the last listed file with that name, as later entries replace earlier ones |
| Generator.EntriesCoverListing | daemon/src/provider/generator.rs:66-77 | every listed file's canonical name has an entry |
| Generator.EntriesDownloadable | daemon/src/provider/generator.rs:71 | every entry's download URL is `/channel/arch/filename` |
| Generator.DownloadUrl | daemon/src/provider/generator.rs:71 | the download URL is a path under `/channel/` that ends in `/name` |
| Generator.Generated | daemon/src/provider/generator.rs:51-82 | a failed listing and an empty listing are errors; a non-empty listing gives exactly the built manifest when the build succeeds and "Failed to build manifest" otherwise; a generated manifest has the channel, architecture and default version, `manifest_version` 1, the entries of the listing and no signatures, and validates; the hash cache is what the listing leaves |
| Generator.BuildFromListing | daemon/src/provider/generator.rs:63-80 | a builder with the version, given every listed file under its normalized name with its size, hash and download URL, finishes as the build of exactly that state |
| Generator.TaggedDigestAccepted | daemon/src/provider/manifest.rs:181-226 | an artifact whose hash is a file's tagged SHA-256 digest, with a file name and a non-zero size, passes artifact validation |
| Generator.BuildsWhenValid | daemon/src/provider/manifest.rs:343-374 | a builder with a version, channel and architecture, a `kernel` artifact, only valid artifacts and valid timestamps builds successfully |
| Generator.TwoFileGenerated | daemon/src/provider/generator.rs:147-158 | generating for `stable`/`arm64` over a store holding non-empty `kernel` and `initramfs` files succeeds with that channel and architecture, `manifest_version` 1 and both artifacts |
| Generator.NothingToServe | daemon/src/provider/generator.rs:160-168 | when no directory exists for the channel under any alias of the architecture, generation fails with "No artifacts found" |
| Generator.ManifestGenerator.constructor | daemon/src/provider/generator.rs:28-34 | a new generator holds the store, the optional key and the crate version as default version |
| Generator.ManifestGenerator.WithVersion | daemon/src/provider/generator.rs:37-40 | sets the default version |
| Generator.ManifestGenerator.Generate | daemon/src/provider/generator.rs:51-82 | the result and the store's new hash cache are what the generation function gives for the old cache |
| Generator.ManifestGenerator.GenerateSigned | daemon/src/provider/generator.rs:93-102 | a failed generation is returned as is; without a key the manifest is returned unsigned; with a key it is returned signed by that key |
| Generator.GeneratedSignedVerifies | daemon/src/provider/generator.rs:171-182 | a generated manifest signed with a key has one `ed25519` signature, and it verifies as true under that key |
| Artifacts.IsValidName | daemon/src/provider/artifacts.rs:182-188 | a name component is valid when it is not empty, holds no `/`, no `\` and no `..`, and is not `.` |
| Artifacts.ValidNameIsPlainComponent | daemon/src/provider/artifacts.rs:182-188 | a name that passes the check is neither `.` nor `..` and holds no `/` or `\` |
| Artifacts.TraversalNamesRefused | daemon/src/provider/artifacts.rs:255-260 | `../etc` and `../../../etc/passwd` are refused |
| Artifacts.ArtifactAlternatives | daemon/src/provider/artifacts.rs:191-198 | only `kernel`, `initramfs` and `rootfs` have alternative file names |
| Artifacts.VariantCandidates | daemon/src/provider/artifacts.rs:53-67 | under one architecture name the exact file name is tried first, then each alternative in list order |
| Artifacts.FirstFile | daemon/src/provider/artifacts.rs:53-67 | the search finds nothing exactly when no candidate is a file, and otherwise the first candidate that is a file |
| Artifacts.FirstFileAppend | daemon/src/provider/artifacts.rs:53-67 | searching two candidate lists one after the other finds a file of the first list whenever it has one |
| Artifacts.SearchOrderAppend | daemon/src/provider/artifacts.rs:53-67 | the candidates of a list of architecture names are those of each name in turn |
| Artifacts.ArtifactPath | daemon/src/provider/artifacts.rs:43-69 | an invalid channel, architecture or name finds nothing; anything found is a file |
| Artifacts.ExactNameFirst | daemon/src/provider/artifacts.rs:53-57 | when the exact name exists under the requested architecture, that file is the one found |
| Artifacts.SearchOrderInside | daemon/src/provider/artifacts.rs:53-67 | every candidate lies directly under `base/channel/variant` for a variant in the list, named by the name or one of its alternatives |
| Artifacts.ArtifactPathInside | daemon/src/provider/artifacts.rs:43-69 | a found path never leaves `base/channel/alias`: its variant is an alias of the architecture and its file name is the name or an alternative |
| Artifacts.CachedHash | daemon/src/provider/artifacts.rs:162-179 | a cached hash is returned without reading the file; on a miss the file's hash is computed and stored under the key; a missing file is an error and leaves the cache alone |
| Artifacts.Found | daemon/src/provider/artifacts.rs:72-89 | no artifact exactly when the search finds no path; a found artifact carries the requested name, the found path, the file's size and the hash cached under (channel, architecture, name), which is the file's hash when it was not cached before |
| Artifacts.FileNames | daemon/src/provider/artifacts.rs:98-101 | the entries of a directory that are files, in listing order: a name is kept exactly when it is an entry and a file |
| Artifacts.ListDir | daemon/src/provider/artifacts.rs:96-118 | exactly the directory's file entries, in listing order, each with its path, its size and the hash cached under (channel, arch name, file name), which is the file's tagged digest unless it was already cached; the cache keeps every entry and gains only those digests |
| Artifacts.ListDirKeepsCache | daemon/src/provider/artifacts.rs:162-179 | listing never removes or changes a cached hash |
| Artifacts.FirstExistingVariant | daemon/src/provider/artifacts.rs:94-96 | the directory used is an alias directory that exists, and none is used only when no alias directory exists |
| Artifacts.Listing | daemon/src/provider/artifacts.rs:92-123 | no alias directory gives an empty listing and an unchanged cache; the first alias path that exists is listed completely when it is a directory and fails to be read otherwise; every listed artifact lies in it |
| Artifacts.TwoFileListing | daemon/src/provider/artifacts.rs:263-273 | a store holding `kernel` and `initramfs` under `stable/arm64` lists two artifacts, `kernel` then `initramfs`, with their tagged digests and sizes |
| Artifacts.ArtifactStore.constructor | daemon/src/provider/artifacts.rs:30-40 | a new store has the base directory and an empty hash cache |
| Artifacts.ArtifactStore.GetArtifactPath | daemon/src/provider/artifacts.rs:43-69 | the nested loops find what the search over the candidate list finds |
| Artifacts.ArtifactStore.FindUnderVariant | daemon/src/provider/artifacts.rs:54-65 | the loop over one architecture name finds the first of its candidates that is a file |
| Artifacts.ArtifactStore.ComputeHash | daemon/src/provider/artifacts.rs:142-159 | a path that is not a file is an error; otherwise the result is `sha256:` and the hex digest of the file |
| Artifacts.ArtifactStore.GetOrComputeHash | daemon/src/provider/artifacts.rs:162-179 | the result and the new cache are what the cached-hash function gives for the old cache |
| Artifacts.ArtifactStore.GetArtifact | daemon/src/provider/artifacts.rs:72-89 | the result and the new cache are what the lookup function gives for the old cache |
| Artifacts.ArtifactStore.ListEntries | daemon/src/provider/artifacts.rs:97-117 | the loop over directory entries gives the listing function's artifacts and cache |
| Artifacts.ArtifactStore.ListArtifacts | daemon/src/provider/artifacts.rs:92-123 | the result and the new cache are what the listing function gives for the old cache |
| Artifacts.FirstFileAt | daemon/src/provider/artifacts.rs:53-67 | when no earlier candidate is a file and candidate k is, candidate k is found |
| Artifacts.FoundInVariant | daemon/src/provider/artifacts.rs:53-67 | when no earlier architecture name has a file and this one does, the search finds what this name's candidates find |
| ProviderServer.ParseRange | daemon/src/provider/server.rs:151-176 | an accepted range is `start <= end < file size`, and a header without the `bytes=` prefix is refused |
| ProviderServer.SplitAtDash | daemon/src/provider/server.rs:153 | splitting `x-y` on `-` when neither part holds `-` gives exactly the two parts |
| ProviderServer.DecimalHasNoDash | daemon/src/provider/server.rs:158-167 | decimal text never holds `-` |
| ProviderServer.ParseRangeOpenEnded | daemon/src/provider/server.rs:156-164 | `bytes=N-` gives `N` to the last byte when `N` is inside the file and is refused otherwise |
| ProviderServer.ParseRangeClosed | daemon/src/provider/server.rs:165-172 | `bytes=S-E` gives `(S, E)` exactly when `S <= E < file size` and is refused otherwise |
| ProviderServer.StripRangePrefix | daemon/src/provider/server.rs:152 | removing `bytes=` from a header that starts with it gives the rest |
| ProviderServer.ParseRangeNeedsOneDash | daemon/src/provider/server.rs:153-174 | a range without exactly one `-` is refused |
| ProviderServer.SuffixRangeRefused | daemon/src/provider/server.rs:155-174 | a suffix range `bytes=-N` is refused |
| ProviderServer.ParseRangeClosedExample | daemon/src/provider/server.rs:405-410 | `bytes=0-1023` on a 10000-byte file is bytes 0 to 1023 |
| ProviderServer.ParseRangeOpenExample | daemon/src/provider/server.rs:412-417 | `bytes=1024-` on a 10000-byte file is bytes 1024 to 9999 |
| ProviderServer.ParseRangeMultipleDashesRefused | daemon/src/provider/server.rs:454-459 | `bytes=0-500-1000` is refused |
| ProviderServer.ParseRangeNonNumericRefused | daemon/src/provider/server.rs:475-480 | `bytes=abc-def` is refused |
| ProviderServer.ContentType | daemon/src/provider/server.rs:209-220 | every artifact name is served as `application/octet-stream` |
| ProviderServer.Respond | daemon/src/provider/server.rs:203-346 | for a found artifact: a header that is not visible ASCII is a 400; an unsatisfiable range is a 416 carrying the file size; a satisfiable range is a 206 with exactly those bytes and their headers; no range is a 200 streaming the whole file; the byte counter grows by the bytes sent and nothing else, and the request counter is untouched |
| ProviderServer.ArtifactHandler | daemon/src/provider/server.rs:181-347 | the request counter grows by one first; a missing artifact is a 404 that counts no bytes; a found one is answered as above; the hash cache is what the lookup leaves |
| ProviderServer.HealthHandler | daemon/src/provider/server.rs:110-122 | the answer is 200 exactly when the health check is healthy and 503 otherwise, with the check as body |
| ProviderServer.ManifestRejection | daemon/src/provider/server.rs:385-391 | a failure message holding "No artifacts found" is a 404 and every other failure a 500 |
| ProviderServer.NoMarkerWithoutN | daemon/src/provider/server.rs:385 | a text without an `N` never contains "No artifacts found" |
| ProviderServer.ManifestFailureStatus | daemon/src/provider/server.rs:372-395 | an empty listing is a 404, a failed build is a 500, and so is a failed listing for names without an `N` |
| ProviderServer.ManifestHandler | daemon/src/provider/server.rs:372-395 | a failed generation is answered with the rejection for its message; otherwise the answer is the generated manifest, signed when the generator has a key |
| ProviderServer.DefaultManifestHandler | daemon/src/provider/server.rs:350-368 | every failed generation is a 500 "Failed to generate manifest"; otherwise the answer is the generated manifest, signed when the generator has a key |
| Dht.New | daemon/src/provider/dht.rs:34-51 | a new record keeps channel, architecture, address and version, is stamped with the clock's time, points at `http://addr/channel/arch/manifest.json` and lives 3600 seconds |
| Dht.DhtKey | daemon/src/provider/dht.rs:54-58 | a record's key lies in the `/phase/` namespace and names a manifest |
| Dht.DhtKeyFields | daemon/src/provider/dht.rs:54-58 | the key `/phase/channel/arch/manifest` splits on `/` into exactly its parts when channel and architecture hold no `/` |
| Dht.DhtKeyInjective | daemon/src/provider/dht.rs:54-58 | two channel and architecture pairs without `/` share a key only when they are equal |
| Dht.ManifestUrlFields | daemon/src/provider/dht.rs:40 | the manifest URL splits on `/` into scheme, address, channel, architecture and `manifest.json` |
| Dht.NewRecordLocatesManifest | daemon/src/provider/dht.rs:34-62 | a new record's URL and key name its own channel and architecture |
| Dht.NewRecordExample | daemon/src/provider/dht.rs:90-112 | the record for `stable`/`arm64` at `192.168.1.100:8080` has the URL, key and TTL the source's test expects |
| Dht.AgeSeconds | daemon/src/provider/dht.rs:77-79 | the age in whole seconds is the nanosecond difference divided by 10^9, truncated toward zero in both directions |
| Dht.IsExpired | daemon/src/provider/dht.rs:75-86 | a creation time that does not parse is expired, and a record is never expired at the instant it was created |
| Dht.UnparsableIsExpired | daemon/src/provider/dht.rs:83-85 | a record whose creation time does not parse is expired |
| Dht.ExpiredIffOlderThanTtl | daemon/src/provider/dht.rs:75-86 | a record created in the past is expired exactly when at least TTL + 1 whole seconds have passed |
| Dht.FutureRecordIsExpired | daemon/src/provider/dht.rs:79 | a record created one second or more in the future is expired, because its negative age wraps to a huge unsigned number |
| Dht.SubSecondFutureNotExpired | daemon/src/provider/dht.rs:79 | a record created less than a second in the future is not expired |
| Dht.RefreshedBeforeExpiry | daemon/src/provider/dht.rs:28-31 | a new record is not expired when made nor after the refresh interval, and is expired after TTL + 1 seconds |
| Dht.Encode | daemon/src/provider/dht.rs:9-24 | a record serializes to an object with exactly its seven field names, in declaration order |
| Dht.Decode | daemon/src/provider/dht.rs:9-24 | deserialization succeeds exactly when all seven fields are present with the right types, by name in an object or by position in an array of exactly seven items, and takes channel, architecture and address from them |
| Dht.DecodePositional | daemon/src/provider/dht.rs:9-24 | the array of a record's encoded values, in declaration order, decodes to that record |
| Dht.FieldsDistinct | daemon/src/provider/dht.rs:9-24 | the seven field names are pairwise distinct |
| Dht.EncodedTargetFields | daemon/src/provider/dht.rs:9-24 | channel and architecture read back from a serialized record |
| Dht.EncodedAddressFields | daemon/src/provider/dht.rs:9-24 | URL and address read back from a serialized record |
| Dht.EncodedLifetimeFields | daemon/src/provider/dht.rs:9-24 | version, creation time and TTL read back from a serialized record |
| Dht.DecodeEncode | daemon/src/provider/dht.rs:114-129 | deserializing a serialized record gives the same record |
| Dht.ToBytes | daemon/src/provider/dht.rs:65-67 | through a faithful codec, the bytes decode to the record's JSON document |
| Dht.FromBytes | daemon/src/provider/dht.rs:70-72 | reading bytes succeeds exactly when the text decodes to a value (object or positional array) that deserializes, and fails with the deserialization error otherwise |
| Dht.FromBytesToBytes | daemon/src/provider/dht.rs:65-72 | through a faithful JSON codec, a record written to bytes and read back is the same record |
| Metrics.ProviderMetrics.constructor | daemon/src/provider/metrics.rs:17-23 | both counters start at zero |
| Metrics.ProviderMetrics.IncrementRequests | daemon/src/provider/metrics.rs:25-27 | the request counter grows by one, wrapping at 2^64, and the byte counter is untouched |
| Metrics.ProviderMetrics.AddBytesServed | daemon/src/provider/metrics.rs:29-31 | the byte counter grows by the amount, wrapping at 2^64, and the request counter is untouched |
| Metrics.ProviderMetrics.Snapshot | daemon/src/provider/metrics.rs:37-42 | a snapshot holds the two counters' current values |
| Metrics.AddsCompose | daemon/src/provider/metrics.rs:29-31 | two wrapping additions equal one wrapping addition of the sum |
| Metrics.FirstRequestCounted | daemon/src/provider/metrics.rs:97-105 | one request and 1024 bytes on new metrics give a snapshot of 1 and 1024 |
| Metrics.HealthCheck.IsHealthy | daemon/src/provider/metrics.rs:70-72 | a health check is healthy when both the artifacts directory is readable and disk space is fine |
| Metrics.PerformHealthCheck | daemon/src/provider/metrics.rs:75-90 | the directory is readable exactly when it is a directory, and disk space is reported fine exactly when the path exists |
| Metrics.CheckDirectoryReadable | daemon/src/provider/metrics.rs:75-77 | a path is readable exactly when it is a directory: the existence test adds nothing |
| Metrics.HealthStatusAgrees | daemon/src/provider/metrics.rs:70-90 | the status text is `healthy` exactly when both checks pass, which is exactly when the path is a directory, and `unhealthy` otherwise |
| Mdns.Hostname | daemon/src/provider/mdns.rs:62-83 | the host name is the trimmed output of the `hostname` command, or `unknown` when it fails |
| Mdns.New | daemon/src/provider/mdns.rs:38-46 | a configuration keeps port, channel and architecture verbatim, carries the crate version and is named `plasmd-` and the host name |
| Mdns.ServiceNameNamesHost | daemon/src/provider/mdns.rs:38-46 | the service name is never empty and the host name follows the `plasmd-` prefix |
| Mdns.TxtRecords | daemon/src/provider/mdns.rs:51-58 | the records have exactly the keys `channel`, `arch`, `version` and `http_port`, with the configuration's values and the port in decimal, which reads back as the port |
| Mdns.TxtRecordsExample | daemon/src/provider/mdns.rs:189-198 | the configuration for port 8080, `testing`, `arm64` gives the records the source's test expects |
| Dht.ExampleUrl | daemon/src/provider/dht.rs:91-103 | the manifest URL for `stable`/`arm64` at `192.168.1.100:8080` is the URL the source's test expects |
| PhaseVerify.FromBytes | daemon/src/bin/phase_verify.rs:261-263 | 32 bytes make a key exactly when they are a valid Ed25519 point, and the key is those bytes |
| PhaseVerify.ParseKey | daemon/src/bin/phase_verify.rs:259-286 | 32 bytes are read as a raw key; otherwise the lossily decoded, trimmed text is read as hex when it is 64 bytes long (bad hex is an error) and as base64 of 32 bytes otherwise; anything else is unrecognized, and a parsed key is always a valid 32-byte point |
| PhaseVerify.RawKeyParses | daemon/src/bin/phase_verify.rs:261-263 | a raw public key file parses to that key |
| PhaseVerify.HexKeyFileParses | daemon/src/bin/phase_verify.rs:266-273 | a key file holding the key in hex followed by a line end parses to the key |
| PhaseVerify.Base64KeyFileParses | daemon/src/bin/phase_verify.rs:276-283 | a key file holding the key in base64 followed by a line end parses to the key |
| PhaseVerify.VerifySignature | daemon/src/bin/phase_verify.rs:289-313 | undecodable data and an undecodable signature are errors, in that order; a verdict is given exactly when both decode and the signature is 64 bytes, and it is the Ed25519 check of the signature over the SHA-256 of the data |
| PhaseVerify.SignedDataVerifies | daemon/src/bin/phase_verify.rs:289-313 | data signed (over its digest) with a key verifies as true under that key's public key |
| PhaseVerify.OtherDataRejected | daemon/src/bin/phase_verify.rs:289-313 | a signature made over other data whose digest differs verifies as false |
| PhaseVerify.FirstVerified | daemon/src/bin/phase_verify.rs:194-216 | no entry is chosen exactly when no signature verifies as true, and otherwise the first one that does |
| PhaseVerify.FindVerified | daemon/src/bin/phase_verify.rs:190-216 | the loop reports success exactly when some signature verifies, with the key id of the first such entry, and an empty key id otherwise |
| PhaseVerify.FirstVerifiedExtends | daemon/src/bin/phase_verify.rs:194-202 | when no earlier entry verifies and entry i does, entry i is the one chosen |
| PhaseVerify.CachedVersion | daemon/src/bin/phase_verify.rs:143-146 | the cached version is the trimmed file text parsed as a `u64`, and 0 when it does not parse |
| PhaseVerify.EarlyStop | daemon/src/bin/phase_verify.rs:141-187 | when neither the rollback check nor key loading stops the run, a given key file has been read |
| PhaseVerify.Run | daemon/src/bin/phase_verify.rs:115-257 | the run's outcome and the version it writes are those of the decision function |
| PhaseVerify.RollbackTextDiffers | daemon/src/bin/phase_verify.rs:156-157 | the rollback message differs from the other two failure messages |
| PhaseVerify.RollbackRefusedIff | daemon/src/bin/phase_verify.rs:141-163 | with a cached version file present, the run reports a rollback exactly when the manifest's version is below the cached one |
| PhaseVerify.PlaceholderKeyFails | daemon/src/bin/phase_verify.rs:170-185 | without a key file and with the placeholder embedded key, the run fails with key id `N/A` and "No verification key available", and writes nothing |
| PhaseVerify.VerifiedIffSomeEntryVerifies | daemon/src/bin/phase_verify.rs:190-255 | with a parsable key, the run reports `VERIFIED` exactly when some signature entry verifies, and names the first such entry's key id |
| PhaseVerify.VersionUpdateRule | daemon/src/bin/phase_verify.rs:220-232 | a version is written exactly when the run verified and both `--update-version` and a version path were given, and what is written reads back as the manifest's version |
| PhaseVerify.DecimalReadsBack | daemon/src/bin/phase_verify.rs:143-146 | every `u64` written in decimal reads back as itself |
| PhaseVerify.WrittenIsVersion | daemon/src/bin/phase_verify.rs:227 | the text written is the manifest's version in decimal |
| PhaseVerify.UpdateBlocksRollback | daemon/src/bin/phase_verify.rs:141-163 | after a verified run has written its version, a later run on an older manifest against that file fails with the rollback message |
| PhaseFetch.Selection | daemon/src/bin/phase_fetch.rs:117-123 | after lowering its case, `all` selects kernel, initramfs and rootfs in that order, an artifact's name selects that artifact, and anything else is the "Unknown artifact" error naming the lowered text; a selection is never empty and never repeats a name |
| PhaseFetch.SelectionIgnoresCase | daemon/src/bin/phase_fetch.rs:117-123 | `ALL` selects all three, `Kernel` selects the kernel, and `boot` is refused |
| PhaseFetch.HashPrefixAsWritten | daemon/src/bin/phase_fetch.rs:146 | the slice `hash[..16]` exists exactly when the hash is at least 16 characters long, and is then its first 16 characters |
| PhaseFetch.TaggedTestHashPanics | daemon/src/bin/phase_fetch.rs:146 | for the hash `sha256:abc123` the slice does not exist, so the progress line panics |
| PhaseFetch.HashPrefix | daemon/src/bin/phase_fetch.rs:146 | the corrected prefix is the first 16 characters, or the whole hash when it is shorter, and agrees with the slice whenever the slice exists |
| PhaseFetch.AcceptedIffVerified | daemon/src/bin/phase_fetch.rs:247-348 | a download is accepted exactly when the server answers with a body, any announced length equals the expected size, the body reads to its end, its length is the expected size and its SHA-256 in hex is the expected hash; an accepted file is stored under its name with exactly the bytes received, and the temporary file is gone |
| PhaseFetch.RejectionKeepsArtifact | daemon/src/bin/phase_fetch.rs:273-337 | a rejected download never changes the file under the artifact's name, and once the body was read completely the temporary file is removed |
| PhaseFetch.AcceptedHashIsBareHex | daemon/src/bin/phase_fetch.rs:329-337 | only a bare lower-case hex hash, never a `sha256:`-tagged one, can be accepted, and it is 64 characters for a 32-byte digest |
| PhaseFetch.TaggedIsNotHex | daemon/src/bin/phase_fetch.rs:329-330 | a `sha256:`-tagged text is never bare lower-case hex |
| PhaseFetch.Row | daemon/src/bin/phase_fetch.rs:203-204 | one mirror is tried `retry` times |
| PhaseFetch.Pow2 | daemon/src/bin/phase_fetch.rs:226 | the mathematical power `2^attempt`, before the 64-bit wrap, is at least one |
| PhaseFetch.Pow2Add | daemon/src/bin/phase_fetch.rs:226 | `2^(a+b)` is `2^a` times `2^b` |
| PhaseFetch.Pow2SixtyFour | daemon/src/bin/phase_fetch.rs:226 | `2^64` is the 64-bit modulus, so the power wraps from attempt 64 on |
| PhaseFetch.Pow2BelowSixtyFour | daemon/src/bin/phase_fetch.rs:226 | `2^attempt` fits in a `u64` for every attempt below 64 |
| PhaseFetch.Pow2MultipleOfModulus | daemon/src/bin/phase_fetch.rs:226 | `2^attempt` is a multiple of `2^64` for every attempt from 64 on, so it wraps to 0 |
| PhaseFetch.BackoffWraps | daemon/src/bin/phase_fetch.rs:224-231 | a retried attempt below 64 sleeps `2^attempt` seconds, and one at 64 or above sleeps 0 seconds, as the wrapped `u64` power |
| PhaseFetch.Doublings | daemon/src/bin/phase_fetch.rs:224-231 | one mirror sleeps once fewer than it is tried |
| PhaseFetch.RowWaits | daemon/src/bin/phase_fetch.rs:224-231 | the sleeps of a mirror that always fails are 1, 2, 4, … seconds, none after its last attempt |
| PhaseFetch.ScheduleLength | daemon/src/bin/phase_fetch.rs:203-204 | the attempts are `retry` per mirror |
| PhaseFetch.ScheduleAppend | daemon/src/bin/phase_fetch.rs:203-204 | the attempts of two mirror lists are those of the first followed by those of the second |
| PhaseFetch.ScheduleOrder | daemon/src/bin/phase_fetch.rs:203-204 | mirrors are tried in manifest order, each one's attempts together |
| PhaseFetch.FetchRowStep | daemon/src/bin/phase_fetch.rs:209-232 | a successful attempt ends the artifact and writes the `.sha256` file with the hash; a failed one records its error, sleeps the backoff and goes on with the next attempt |
| PhaseFetch.ScheduleFrom | daemon/src/bin/phase_fetch.rs:203-204 | from mirror u on, the attempts are mirror u's followed by the later mirrors' |
| PhaseFetch.FetchFailed | daemon/src/bin/phase_fetch.rs:189-244 | every scheduled attempt is made before the artifact fails, with all its backoff sleeps, and a failure never changes the artifact's file |
| PhaseFetch.FetchSucceeded | daemon/src/bin/phase_fetch.rs:189-244 | success reports the name, size, hash and output path, leaves a verified file, writes the hash to `name.sha256`, and leaves no temporary file |
| PhaseFetch.DefaultErrorIffNoAttempt | daemon/src/bin/phase_fetch.rs:243 | the failure is "All download attempts failed" exactly when no attempt was made; otherwise it is the last attempt's error |
| PhaseFetch.FetchFrame | daemon/src/bin/phase_fetch.rs:189-244 | fetching an artifact touches no file but the artifact, its temporary file and its hash file |
| PhaseFetch.FetchArtifactRun | daemon/src/bin/phase_fetch.rs:189-244 | at most mirrors × retry attempts are made and all of them when the artifact fails; the default error appears exactly when there are no mirrors or no retries; the sleeps are the backoff sequence once per mirror |
| PhaseFetch.WaitsAppend | daemon/src/bin/phase_fetch.rs:224-231 | the sleeps of two attempt lists are those of each in turn |
| PhaseFetch.ScheduleWaits | daemon/src/bin/phase_fetch.rs:224-231 | the sleeps of a fully failing artifact repeat the backoff sequence for each mirror |
| PhaseFetch.DefaultRetryWaits | daemon/src/bin/phase_fetch.rs:40-42 | with the default three retries a mirror sleeps 1 and then 2 seconds |
| PhaseFetch.NamesApart | daemon/src/bin/phase_fetch.rs:197-198 | no artifact's file is another artifact's temporary or hash file |
| PhaseFetch.Record | daemon/src/bin/phase_fetch.rs:157-167 | a fetched artifact's result is appended and a failure sets the failed flag, which nothing clears |
| PhaseFetch.Corrected | daemon/src/bin/phase_fetch.rs:144-147 | the corrected announcement always exists and is a prefix of the hash |
| PhaseFetch.PanicsIffShortHash | daemon/src/bin/phase_fetch.rs:144-147 | as written, a run that is not quiet panics exactly when some selected artifact in the manifest has a hash shorter than 16 characters, and a quiet run never panics |
| PhaseFetch.TaggedTestRunPanics | daemon/src/bin/phase_fetch.rs:126-147 | as written, `all` with the kernel hash `sha256:abc123` panics at the first announcement, before any download, file write or result |
| PhaseFetch.CorrectedNeverPanics | daemon/src/bin/phase_fetch.rs:144-147 | with the corrected announcement, no run panics |
| PhaseFetch.CorrectedRunAttemptsAll | daemon/src/bin/phase_fetch.rs:126-170 | a quiet run as written, and every run with the corrected announcement, downloads each selected artifact that has a mirror at least once |
| PhaseFetch.Outcome | daemon/src/bin/phase_fetch.rs:169-171 | a panicked run has no result; otherwise the run fails with the fixed message exactly when an artifact failed, and succeeds with its results otherwise |
| PhaseFetch.PassResults | daemon/src/bin/phase_fetch.rs:126-170 | when no artifact failed and the run did not panic, the results are the selected artifacts present in the manifest, in selection order |
| PhaseFetch.PassVerified | daemon/src/bin/phase_fetch.rs:126-170 | when no artifact failed and the run did not panic, every selected artifact present in the manifest is on disk with its expected size and hash |
| PhaseFetch.PassKeepsFailure | daemon/src/bin/phase_fetch.rs:157-170 | one failed artifact fails the whole run, whatever comes after it |
| PhaseFetch.PassKeepsFile | daemon/src/bin/phase_fetch.rs:126-170 | an artifact that is not selected keeps its file |
| PhaseFetch.EveryArtifactAttempted | daemon/src/bin/phase_fetch.rs:126-170 | a failing artifact does not stop the others: unless the run panics, every selected artifact with a mirror is attempted at least once |
| PhaseFetch.MissingRootfsSkipped | daemon/src/bin/phase_fetch.rs:130-141 | a manifest without a rootfs is fetched with `all` exactly as if only kernel and initramfs were selected |
| PhaseFetch.Fetcher.constructor | daemon/src/bin/phase_fetch.rs:87-113 | a new fetcher starts from the given output directory, with no sleeps, attempts or log lines |
| PhaseFetch.Fetcher.ReadBody | daemon/src/bin/phase_fetch.rs:294-312 | the read loop gathers all chunks in order, counts their bytes, and reports whether the read ended cleanly |
| PhaseFetch.Fetcher.DownloadAndVerify | daemon/src/bin/phase_fetch.rs:247-348 | one attempt changes the files as the attempt function says and counts one attempt |
| PhaseFetch.Fetcher.TryMirror | daemon/src/bin/phase_fetch.rs:204-233 | the retry loop over one mirror does exactly what the fetch function does over that mirror's attempts |
| PhaseFetch.Fetcher.FetchArtifact | daemon/src/bin/phase_fetch.rs:189-244 | the nested mirror and retry loops do exactly what the fetch function does over the whole schedule |
| PhaseFetch.Fetcher.FetchAll | daemon/src/bin/phase_fetch.rs:116-170 | an unknown selection is an error that changes nothing; otherwise the run is the pass over the selection with the announcement as written (`hash[..16]`), so it panics on a short hash unless quiet, and otherwise fails when any artifact failed |

## Left out

- Cryptography and text encodings are not implemented. SHA-256, Ed25519 and UTF-8 are fields of a `Suite` parameter, the JSON text codec is a `Codec` parameter, and the properties the lemmas use are their hypotheses.
- The file system, HTTP, the `proc_open` subprocess and clocks are parameters (maps, oracle functions, integers). Their failures are modelled only where the source branches on them. I/O error texts that come from libraries (`std::io`, reqwest, libsodium) are represented by constants, not by the libraries' wording. So is the serde_json error text that `WasmReceipt.FromJson`, `WasmManifest.FromJson` and `Dht.FromBytes` append after their fixed prefix.
- `Artifacts.READ_DIR_FAILED`: the text of a failed `read_dir` comes from the operating system, so the constant stands for it.
- `FileSystems.FileSystem.FileLen` clamps a length at 2^64 - 1 to give it `u64` type. No file reaches that size.
- Concurrency is left out. The `AtomicU64` counters, the `RwLock` around the hash cache and tokio/axum scheduling are modelled as sequential state.
- Logging, `tracing` calls and the printing done by `phase_verify`'s `output_result` and `phase_fetch`'s progress lines are left out. The progress line's hash slice is the exception: `PhaseFetch.Pass` models the panic it causes, which ends the run before any further download.
- `HashMap` iteration order is not fixed. Where it decides which invalid artifact `BootManifest::validate` reports first, the order is a parameter, and the lemmas hold for every order that enumerates the map. A directory's entry order is part of the `FileSystem` value.
- serde's byte-exact output, including the text hashed by `compute_manifest_hash`, is a serializer parameter. It is a function of the manifest value, so `ManifestSigning.SignThenVerify` is stated for verifying the same manifest that was signed, as `signing.rs`'s own test does. A copy of the manifest rebuilt elsewhere can serialize its `artifacts` `HashMap` in another order, because that order depends on each map's `RandomState`.
- `ManifestSigning.SignManifest`: Rust's `&mut BootManifest` is modelled as a function that returns the updated manifest value.
- Routing, header serialization and response streaming in axum are left out. The handlers are modelled from their inputs to their status, headers and body.
- `info_handler` and `status_handler` of the provider server are left out. So are the server's `new` and `run`. They only format values or wire up routes.
- HTTP reason phrases are left out. Only status codes and header values are modelled.
- `Digests.HashInChunks` reads the file `READ_BUFFER_SIZE` (8192) bytes at a time and feeds each chunk to the hasher. The hasher's state is not modelled: it is the SHA-256 oracle applied to everything fed so far.
- `list_channels` in `artifacts.rs` is left out. So is the directory creation in `ArtifactStore::new`.
- `artifacts.rs` has its own copy of `arch_aliases`. It is the same table as `config.rs`'s and is modelled once, by `ProviderConfig.ArchAliases`.
- `PhaseFetch.TempName` names the temporary download file by appending `.tmp`. `with_extension("tmp")` replaces an existing extension instead, so the two differ only in the name of that temporary file.
- `Strings.ToLowerForKeyword`: Rust's `to_lowercase` is modelled only as far as a comparison with an ASCII keyword can see it.
- `str::starts_with` and slicing work on bytes in Rust. Text here is a sequence of characters, so a prefix is a prefix of characters.
- `Dht.AgeSeconds`: timestamps are integers of nanoseconds. `Dht.ExpiredIffOlderThanTtl` is stated only for ages below 2^63 seconds, where the `i64` to `u64` cast does not wrap.
- The DHT key's bytes are its UTF-8 encoding through the `Suite`. The bytes round trip of a record is stated through the `Codec`.
- `PhaseFetch` does not model the `total_bytes` counter overflowing `u64` while a body is read. No response is that large.
- `PhaseFetch.Pow2` holds only the unwrapped power. The 64-bit wrap of `2_u64.pow(attempt)` is modelled in `PhaseFetch.Backoff` and is 0 from attempt 64 on (`PhaseFetch.BackoffWraps`). Rust's debug-build overflow panic is not modelled.
- `SdkManifest.Manifest.FromWasmFile` does not model PHP's warning on reading a directory. It also does not model a file that exists but cannot be read; PHP would hash the empty string for it, as for a directory.
- Timeouts and the read buffer size of the download client are left out. A timeout is one of the transfer outcomes.
- Manifest JSON parsing inside `phase_fetch` and `phase_verify` is the `Codec` parameter. The binaries are modelled from the parsed manifest on.
- `Receipt::new` in `receipt.rs` panics when the system clock reads earlier than the Unix epoch. That case is left out: the clock is a `u64` parameter of seconds.
- `Mdns`: the advertiser is a placeholder in the source and is left out. Only `MdnsConfig::new` and `txt_records` are modelled, with the `hostname` subprocess as a parameter.
- `SdkClient.Job.constructor` takes the manifest that `createJob` has already built with `Manifest::fromWasmFile`, where the PHP constructor builds it itself. `wait` only calls `submit`, so `SdkClient.Job.Submit` models both.
- `PhaseVerify.EarlyStop` states only that a given key file was read when the run goes on. It does not restate the whole error order, which `PhaseVerify.Run` and its lemmas state.
- `PhaseVerify.ParseKey`: for the 64-character hex branch, the contract states only that a successful parse is the decoding of the text. It does not say which hex error message is produced.
- `ManifestSigning.VerifyManifestSignature`: a detail of `INVALID_SIGNATURE_FORMAT` is not modelled. The source appends the library's error text to that message, and the model keeps only the fixed prefix.
- `Execution.ExecutionHandler.ExecuteJob` refuses a memory limit whose byte count does not fit in `u64`, with the error text `memory_mb too large`. That text is not in the source, which wraps instead (see Findings).
- The provider tags artifact hashes as `sha256:<hex>`, while `phase_fetch` compares against the bare hex digest of the body. The model keeps each side as written, and `PhaseFetch.AcceptedHashIsBareHex` shows that only a bare lower-case hex hash can be accepted.
- `SdkReceipt.Construct`: the JSON model has no floating-point case. PHP's `json_decode` yields a float for the JSON numbers `1.0`, `1e3` or an integer beyond `PHP_INT_MAX`, and the receipt's typed `int` properties then coerce it; that path is not modelled. (Numeric strings such as `"1e3"` are modelled, by `PhpNumbers`.) PHP integers are 64-bit, while `JInt` is unbounded, so overflow of a decoded integer is not modelled, and neither is the `TypeError` for a numeric string outside the 64-bit range. A numeric string with more significant digits than a double holds is read exactly rather than rounded. The warning PHP raises for trailing non-numeric text is logging and is left out.
- `SdkManifest.Parse`: for the same reason, a JSON float for `cpu_cores`, `memory_mb` or `timeout_seconds` and its coercion to `int` are not modelled, the integer properties are unbounded rather than 64-bit, and a numeric string is read exactly, with no range check and no double rounding.
- `ProviderManifest.Validate` and `ProviderManifest.FirstInvalidArtifact` take the iteration order as a parameter and do not require it to name every artifact. The source always visits the whole map; the model's promise for the whole map is stated for enumerating orders by `ProviderManifest.ValidManifestAnyOrder`, and `ProviderManifest.Build`, `Generator.Generated` and the server's manifest handler pass the order through unconstrained.

## Findings

| source | as written | input that shows it | evidently intended | confidence | as-written member | corrected member |
|---|---|---|---|---|---|---|
| php-sdk/src/Crypto.php:17-20 | `verifyReceipt` calls `getNodePubkey()` and `getSignature()`, which `Receipt` does not define, so every call throws `Error` | any receipt | read the receipt's public key and signature and check them | not executed | SdkCrypto.VerifyReceiptAsWrittenThrows | SdkCrypto.VerifyReceipt |
| daemon/src/network/execution.rs:47-48 | `memory_mb * 1024 * 1024` in `u64` wraps in a release build | `memory_mb = 2^44` gives a limit of 0 bytes | the limit in bytes, or a refusal when it does not fit | not executed | Execution.MemoryLimitAsWrittenWraps | Execution.MemoryLimitExact |
| daemon/src/bin/phase_fetch.rs:146 | `&artifact.hash[..16]` panics when the hash is shorter than 16 bytes | the hash `sha256:abc123` | print at most the first 16 characters | not executed | PhaseFetch.TaggedTestRunPanics | PhaseFetch.CorrectedNeverPanics |

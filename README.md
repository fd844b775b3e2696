# MIFARE Classic key search over a PN532 reader, in Dafny

Two small Python scripts drive a PN532 NFC reader over I2C. `leer.py` dumps a
MIFARE Classic 1K card. For each of its 64 blocks it tries every candidate key
as Key A and then as Key B, stops at the first one that works, and reads the
block once. `lector.py` authenticates block 4 with Key A, falls back to Key B,
writes the text "hola mundo" zero-padded to a 16-byte block, and reads it back.

Each script defines its own copy of `try_authenticate` (leer.py:37-66,
lector.py:32-66); the two copies make the same calls. It tries two representations of the slot,
the symbol `'A'`/`'B'` and then the command code `0x60`/`0x61`. For each one it
makes a keyword-style driver call, and a positional call only when the keyword
call raised `TypeError`. It returns true at the first truthy answer and swallows
every other exception.

The driver is modelled as oracle functions:

- `AuthDriver` maps a call (block, key, key type, call style) to `Returned(truthy)`,
  `TypeErr` or `OtherErr`.
- `ReadDriver` maps a block to `Data(bytes)`, `NoData` or `ReadErr`.
- `WriteDriver` maps a (block, data) pair to `Written` or `WriteErr`.

Every search records the calls it made as a trace of `Attempt`s. Ordering,
first-match and exhaustion are stated over that trace.

Files:

- `driver.dfy` (module `Driver`): bytes, key types, calls, outcomes, and the
  oracle types.
- `authenticate.dfy` (module `Authenticate`): the reference function `Attempts`
  for `try_authenticate`, its properties, and the loop over the key types that
  both scripts run.
- `leer.dfy` (module `Leer`): `printable`, `try_authenticate` of `leer.py`, the
  per-block key/slot search with its `used_key`/`used_key_type`/`read_success`
  bookkeeping, and the scan of all 64 blocks.
- `lector.dfy` (module `Lector`): `text_to_16bytes`, the
  `rstrip` of trailing NUL bytes, `try_authenticate` of `lector.py` with its
  list built by appends, and the Key A to Key B fallback, the write and the
  read-back of `main`.

## Model

| member | source | states |
|---|---|---|
| Authenticate.KeyTypeAttempts | leer.py:51-62 | For one key type, the keyword call comes first and records the driver's answer. A second, positional call with the same block, key and key type is made exactly when the keyword call raised TypeError. |
| Authenticate.TryKeyType | leer.py:51-62 | One iteration of the key-type loop makes exactly those calls. It reports success exactly when the keyword call returned truthy, or the keyword call raised TypeError and the positional call returned truthy. |
| Authenticate.TryKeyTypes | leer.py:50-66 | The loop over the key-type list makes exactly the calls of `Attempts` and returns true exactly when the last of them returned truthy. |
| Authenticate.AttemptsAnswered | leer.py:50-62 | Every recorded outcome is the driver's answer to the recorded call. Every call is for the given block and key and one of the listed key types. |
| Authenticate.AttemptsBound | leer.py:50-62 | At most two calls per key type, so at most four per invocation. At least one call is made when the list is not empty. |
| Authenticate.AttemptsStopAtFirstSuccess | leer.py:50-66 | No call before the last one returned truthy. The result is true exactly when some call in the trace returned truthy. |
| Authenticate.AttemptsPositionalFollowTypeError | leer.py:51-62 | Every positional call directly follows the keyword call with the same arguments, and that call raised TypeError. Every keyword call that raised TypeError is directly followed by that positional call. |
| Authenticate.KeywordCallsInOrder | leer.py:50 | The key types of the keyword calls are a prefix of the key-type list, in list order, and include the first entry. |
| Authenticate.KeywordCallsExhaust | leer.py:50-66 | When the result is false, a keyword call was made for every key type in the list. |
| Authenticate.LastKeyTypeIsFirstMatch | leer.py:50-66 | When the result is true, the last key type reached authenticates and no earlier key type does. |
| Authenticate.AuthenticatesIff | leer.py:50-66 | The result is true if and only if some key type of the list authenticates through the keyword or the positional call. Exceptions never end the search. |
| Authenticate.TryAuthenticateShape | leer.py:44-48 | For label 'A' the first call is the keyword call with 'A'; for any other label it is the keyword call with 'B'. Symbols come before codes, and an invocation makes one to four calls. |
| Leer.Printable | leer.py:33-35 | Printable output has the input's length. Character i is byte i when that byte is in 32..126 and '.' otherwise. Every output character is in 32..126. |
| Leer.PrintableRoundTrip | leer.py:33-35 | Rendering the bytes of a rendering gives the same text. Bytes that are all printable render to exactly themselves. |
| Leer.TryAuthenticate | leer.py:37-66 | `try_authenticate` makes the calls of `Attempts` over 'A', 0x60 for label 'A' (and over 'B', 0x61 for any other label). It returns true exactly when the last call returned truthy. |
| Leer.PlanAt | leer.py:105-136 | Pair j of the trial order uses key j / 2: as Key A when j is even and as Key B when j is odd. |
| Leer.PlanPrefix | leer.py:105-136 | The trial order over fewer keys is a prefix of the trial order over more keys. |
| Leer.FirstKeyIsLeast | leer.py:105-136 | The first working key has no working key before it. When there is none, no key works under either slot. |
| Leer.SearchKey | leer.py:106-136 | One candidate is tried as Key A and then, only if that fails, as Key B. The slot reported is A if A works, otherwise B if B works, otherwise none. The calls are exactly those of the pairs tried. |
| Leer.SearchBlock | leer.py:100-136 | The per-block search yields the report of `Report`: pairs tried, calls made, `used_key`, `used_key_type`, a single read, and `read_success`. |
| Leer.SearchExhausted | leer.py:100-138 | No key is used exactly when no candidate authenticates under A or B; then every pair was tried and no slot is recorded. The block is read exactly when a key was used. `read_success` holds exactly when a key was used and the read returned data. |
| Leer.SearchTriedInOrder | leer.py:105-136 | The pairs tried are a prefix of (K1,A), (K1,B), (K2,A), .... |
| Leer.SearchFirstMatch | leer.py:106-125 | When a key is used, the last pair tried authenticates, and `used_key`/`used_key_type` name exactly that pair. |
| Leer.SearchEarlierPairsFail | leer.py:105-136 | When a key is used, every pair tried before the last one failed to authenticate. |
| Leer.ScanCard | leer.py:95-99 | The card scan returns 64 reports, and they are `Scan` of the per-block search over their count: report n comes from the search of block n. |
| Leer.ScanReportAt | leer.py:95-99 | Report n of a scan is the search of block n and is for block n, so blocks 0..63 are each searched once, in increasing order. |
| Leer.ScanConfiguredCard | leer.py:14-21 | The script's own dump with its four candidate keys returns the 64 per-block reports, and on each block at most the eight pairs (K1,A) ... (K4,B) are tried, in trial order. |
| Lector.TextTo16Bytes | lector.py:26-30 | The result is always 16 bytes. Byte i is input byte i when the input has one, and zero otherwise. |
| Lector.TextTo16BytesShape | lector.py:28-30 | An input of at most 16 bytes is kept whole at the front. A longer input is cut to its first 16 bytes. |
| Lector.StripTrailingZeros | lector.py:133 | The result is a prefix of the input that is empty or ends in a nonzero byte. Every byte removed is zero. |
| Lector.PadStripRoundTrip | lector.py:133 | Stripping the padded block gives back any input of at most 16 bytes that does not end in a zero byte. |
| Lector.TextFits | lector.py:115 | "hola mundo" is padded with six zero bytes, and stripping gives it back. |
| Lector.TryAuthenticate | lector.py:32-66 | The list built by appends is 'A', 0x60 for label 'A' and 'B', 0x61 otherwise. Its calls and result are those of `Attempts` over that list, so every property above carries over. |
| Lector.WriteCard | lector.py:92-138 | One detected card follows `Session`. Key A is tried first and Key B only when A fails. Nothing is written when both fail. The padded text is written, and on a write error the card is abandoned. Otherwise the block is read back once and the stripped bytes are shown when data came back. |
| Lector.FallbackOrder | lector.py:94-99 | The calls begin with those of Key A. They are exactly those of Key A if and only if Key A authenticated. When Key A failed, they are Key A's calls followed by exactly the calls of `try_authenticate` with Key B. |
| Lector.KeyUsedAndWrite | lector.py:97-127 | The key used is Key A when A authenticated, and Key B when only B did. No key is used exactly when neither authenticated. A 16-byte padded payload is written exactly when a key was used, and authentication failure is the outcome exactly when no key was used. Once a key is used, the card is abandoned exactly when the write raised; otherwise it finishes with the one read of the block. |
| Lector.ReadBackRoundTrip | lector.py:125-133 | After a successful write, when the read returns the block just written, a text of at most 16 bytes that does not end in zero is shown unchanged. |
| Lector.WriteConfiguredCard | lector.py:15-22 | The script's own run on block 4 with its two keys writes "hola mundo" followed by six zero bytes. |

## Left out

- I2C, `busio`/`board`, the `PN532_I2C` construction, `firmware_version` and `SAM_configuration`: hardware set-up with no decision logic.
- The `read_passive_target` polling loop and `time.sleep`: the model starts once a card is detected.
- Leer.ScanCard: models the dump of one detected card. The `break` that ends the script afterwards is not modelled.
- Lector.WriteCard: the `continue` after an authentication or write failure, which goes back to polling for another card, is modelled as a final `AuthFailed` or `WriteFailed` outcome.
- The driver itself: the oracles are stateless. An answer does not depend on earlier calls or on what was written, and MIFARE Crypto-1 and ISO 14443 framing are not modelled.
- Exceptions that do not derive from `Exception`, which `try_authenticate` would let through.
- All printed output, f-string formatting and `.hex()` rendering, including `key_used_hex`, which is used only for display.
- `bytes.fromhex` (`hex_to_bytes`): each candidate key is given as its hexadecimal label together with its bytes.
- `str.encode('utf-8')` and `decode(errors='replace')`: text is modelled as its encoded bytes. A cut at byte 16 that splits a multi-byte UTF-8 character is therefore not visible.
- The read returning a value other than bytes: `ReadDriver` yields raw bytes directly, so the `bytes(...)` conversion is the identity.

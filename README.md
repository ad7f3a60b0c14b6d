# MorphiQ QR: chunked encrypted transport, modelled in Dafny

MorphiQ QR lets two phones exchange short text messages without a network.
The sender encrypts a message under a secret key shared with the contact.
The ciphertext is cut into frames of at most 1000 characters, and each frame
is shown as a QR code. The receiver scans the codes in order. Finishing joins
the scanned frames, decrypts the result, and on success records the message
in the contact's history.

The project models three parts of the app:

- `framer.dfy` (module `Framer`) is the framer. `SplitMessage` is the
  source's loop that steps by `MaxQrChunk` and pushes `substring(i, i + 1000)`.
  JavaScript's clamping `substring` is modelled too. `ReassembleMessage` is
  `join("")`. `Chunks` is a recursive reference definition of the frames, and
  the lemmas prove the properties of splitting and joining.
- `chat.dfy` (module `Chat`) is the chat screen as a class, `ChatSession`.
  Its fields are `message`, `qrChunks`, `showQR`, `scanning`,
  `receivedChunks` and `chatHistory`. Its methods mirror the screen's
  handlers, including the two inline cancel handlers. The cipher is handed
  to the session as two functions: `encrypt` and `decrypt`, where `decrypt`
  returns an `Option`. Time stamps are method parameters.
- `contacts.dfy` (module `Contacts`) is the contact list as a class,
  `ContactList`. It models JavaScript's `trim` with its whitespace set, the
  `find` by name, and `addContact` with its guard and prepend. The proved
  invariant is that names stay unique and that stored names and keys are
  trimmed and non-blank.
- `wrappers.dfy` holds the `Option` type.

Receiving with a failed decryption follows the code. On failure the history,
the scan buffer and the scanning flag are all left as they were. The user
can scan more frames, which go at the end of the buffer, and finish again.
This recovers only a missing last frame: a missed middle frame scanned
afterwards is joined out of order. Clearing the buffer on failure
would be another reasonable policy, but `handleFinishReceiving` does nothing
on that path except show an alert, and the model follows it.

A decryption result counts as failure when it is `None` or the empty string.
This follows the truthiness test in `handleFinishReceiving`.

## Model

| member | source | states |
|---|---|---|
| `Framer.Substring` | ChatScreen.js:14 | JavaScript `substring`: within bounds it is exactly the slice `s[start..end]`; it never grows past the string |
| `Framer.SplitMessage` | ChatScreen.js:11-17 | the loop's frames are the reference frames `Chunks(m, 1000)`; they join back to `m`; there are ceil(length / 1000) of them; each is non-empty and at most 1000 characters; all but the last have exactly 1000; frame `k` is `m[1000k .. min(1000k+1000, len(m))]` |
| `Framer.ChunksRoundTrip` | ChatScreen.js:11-21 | joining the frames of any string gives the string back |
| `Framer.ChunksBounded` | ChatScreen.js:13-14 | every frame is non-empty and holds at most the limit |
| `Framer.ChunksCount` | ChatScreen.js:13 | the number of frames is the length divided by the limit, rounded up; the empty string, and only it, gives no frames |
| `Framer.ChunksAt` | ChatScreen.js:13-14 | frame `k` is `m[k*n .. min(k*n+n, len(m))]`, and every frame but the last has exactly `n` characters |
| `Framer.FramesAreChunks` | ChatScreen.js:11-17 | a sequence with ceil(len(m) / n) elements whose element `k` is `m[k*n .. min(k*n+n, len(m))]` is exactly the frame sequence of `m` |
| `Framer.ReassembleAppend` | ChatScreen.js:19-21 | joining is a homomorphism: `join(a + b) == join(a) + join(b)` |
| `Framer.RescanRepeats` | ChatScreen.js:19-21 | a buffer where frame `k` was scanned twice joins to a string holding that frame twice in a row |
| `Framer.RescanCorrupts` | ChatScreen.js:61-63 | rescanning any frame of a message makes the joined buffer differ from the ciphertext, because nothing deduplicates |
| `Chat.ChatSession.constructor` | ChatScreen.js:25-31 | the screen opens with an empty message, no frames shown, no scan running, an empty buffer and an empty history |
| `Chat.ChatSession.EditMessage` | ChatScreen.js:115 | typing replaces `message` and nothing else |
| `Chat.ChatSession.HandleGenerateQR` | ChatScreen.js:46-52 | an empty message leaves the frames and `showQR` as they were; otherwise `qrChunks` are the frames of `encrypt(message, key)`, they join back to that ciphertext, and `showQR` is set; the receive state and the history are untouched |
| `Chat.ChatSession.HandleSaveSent` | ChatScreen.js:82-92 | a sent entry with the current message and the given time is put first, and the old history follows unchanged; frames are cleared, `showQR` is false and `message` is empty; the button exists only while frames are shown (line 122) |
| `Chat.ChatSession.CancelSend` | ChatScreen.js:132 | the frames are discarded and `showQR` is false; the history and the message are untouched |
| `Chat.ChatSession.HandleScanQR` | ChatScreen.js:54-59 | scanning starts with an empty buffer; nothing else changes |
| `Chat.ChatSession.HandleBarCodeScanned` | ChatScreen.js:61-63 | the payload is appended at the end of the buffer with earlier entries unchanged and no deduplication; the joined buffer grows by exactly the payload; it requires a running scan, since the scanner is mounted only then (line 136) |
| `Chat.ChatSession.HandleFinishReceiving` | ChatScreen.js:65-80 | success is exactly a decryption of the joined buffer that is neither missing nor empty; on success a received entry with the plaintext goes first, the old history follows, the buffer is cleared and scanning stops; on failure the history, the buffer and `scanning` are unchanged; it requires a running scan with at least one frame (lines 136, 147) |
| `Chat.ChatSession.CancelReceive` | ChatScreen.js:149-156 | the buffer is discarded and scanning stops; the history is untouched |
| `Chat.Exchange` | ChatScreen.js:46-80 | if the receiver's `decrypt` recovers the message from the sender's non-empty ciphertext, then generating, scanning every frame in the order shown and finishing succeeds and records exactly that message first in the receiver's history |
| `Contacts.TrimStart` | App.js:29 | the result is the suffix of the input after all leading whitespace; it does not start with whitespace |
| `Contacts.TrimEnd` | App.js:29 | the result is the prefix of the input before all trailing whitespace; it does not end with whitespace |
| `Contacts.Trim` | App.js:29-30 | `trim()` is empty exactly when the input is all whitespace; otherwise it neither starts nor ends with whitespace |
| `Contacts.TrimIdempotent` | App.js:35-36 | trimming a trimmed name or key changes nothing |
| `Contacts.FindByName` | App.js:31 | `find` gives nothing exactly when no contact has the name; otherwise the first contact in the list with that name |
| `Contacts.AddKeepsInvariant` | App.js:28-38 | when the guard admits the fields, prepending the new contact keeps names pairwise distinct and every stored name and key trimmed and non-blank |
| `Contacts.ContactList.constructor` | App.js:12-14 | the screen opens with no contacts and empty fields |
| `Contacts.ContactList.SetNewContactName` | App.js:63-64 | typing replaces the name field and nothing else |
| `Contacts.ContactList.SetNewContactKey` | App.js:69-70 | typing replaces the key field and nothing else |
| `Contacts.ContactList.AddContact` | App.js:27-43 | it adds a contact exactly when the trimmed name and key are non-empty and no contact has the trimmed name; then the contact with the trimmed fields is at index 0, the old list follows and both fields are reset to empty; otherwise nothing changes; name uniqueness is preserved |

## Left out

- Encryption (`encryption.js`) is a wrapper over the CryptoJS AES library, with a passphrase-derived key and a random salt. It is not modelled. The session receives `encrypt` and `decrypt` as functions. No relation between them is assumed, so no decrypt-after-encrypt round trip is claimed. The model's `encrypt` is a fixed function of message and key, so generating the same message twice shows the same frames; the app's `encryptMessage` draws a fresh random salt on every call, so its frames differ each time. `Chat.Exchange` takes that round trip as a hypothesis.
- AsyncStorage reads and writes and JSON (de)serialisation are asynchronous I/O and are not modelled. Saving the history or the contacts is a plain field assignment. Loading a stored history or contact list when the screen opens is left out, so both lists start empty.
- The camera permission request in `handleScanQR` and the `hasPermission` field are left out. They are device plumbing and affect only whether the scanner is drawn.
- Rendering, navigation, QR drawing and alerts are left out. An alert's outcome is the `ok` result of `HandleFinishReceiving`.
- `Date.now()` ids and ISO time stamps are not modelled. They are passed in as `id` and `time` parameters.
- React's deferred and batched state updates are not modelled, nor are closures that see a stale `chatHistory`. Each handler runs to completion on the current state.
- Strings are sequences of Unicode characters, while JavaScript's `length` and `substring` count UTF-16 code units. The two agree on every character of the Basic Multilingual Plane, which includes the base64 text the cipher produces and every character `trim` removes. Splitting a plaintext with characters outside that plane is not what the app does, so the difference is not modelled.
- Frame-order sensitivity is not proved. Whether a permuted buffer decrypts to the message depends on the cipher, and the model knows nothing about it.

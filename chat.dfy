/**
  The per-contact chat screen. Sending: the typed message is encrypted under
  the contact's key, split into QR-sized frames and shown; the user then saves
  it to the history or cancels. Receiving: scanning starts with an empty
  buffer, every scanned payload is appended to it, and finishing joins the
  buffer, decrypts it and, when that yields a non-empty plaintext, records it.

  The cipher is a pair of functions handed to the session: `encrypt` never
  fails, and `decrypt` gives `None` where the library throws. Nothing is
  assumed about how the two relate. Unlike the app's salted cipher, the
  model's `encrypt` is deterministic: the same message and key always give
  the same ciphertext.
 */
module Chat {
  import opened Wrappers
  import opened Framer
  import Contacts

  datatype Direction = Sent | Received

  /** One history record: who wrote it, the plaintext and the time stamp. */
  datatype Entry = Entry(kind: Direction, message: string, time: string)

  /**
    The truthiness test on `decryptMessage`'s result: both a missing result
    and the empty string count as failure.
   */
  predicate Decrypted(d: Option<string>)
  {
    d.Some? && d.value != ""
  }

  class ChatSession {
    const contact: Contacts.Contact
    const encrypt: (string, string) -> string
    const decrypt: (string, string) -> Option<string>

    var message: string
    var qrChunks: seq<string>
    var showQR: bool
    var scanning: bool
    var receivedChunks: seq<string>
    var chatHistory: seq<Entry>

    /**
      What every handler keeps: the frames on show fit in one QR code each
      and are cleared whenever they are hidden, the scan buffer is empty
      whenever no scan is running, and no received entry is blank.
     */
    ghost predicate Valid()
      reads this
    {
      && (forall k :: 0 <= k < |qrChunks| ==> 0 < |qrChunks[k]| <= MaxQrChunk)
      && (!showQR ==> qrChunks == [])
      && (!scanning ==> receivedChunks == [])
      && (forall k :: 0 <= k < |chatHistory| && chatHistory[k].kind == Received ==> chatHistory[k].message != "")
    }

    /** The screen as it opens for `contact`, with an empty history. */
    constructor (contact: Contacts.Contact, encrypt: (string, string) -> string,
                 decrypt: (string, string) -> Option<string>)
      ensures Valid()
      ensures this.contact == contact && this.encrypt == encrypt && this.decrypt == decrypt
      ensures message == "" && qrChunks == [] && !showQR
      ensures !scanning && receivedChunks == [] && chatHistory == []
    {
      this.contact := contact;
      this.encrypt := encrypt;
      this.decrypt := decrypt;
      message := "";
      qrChunks := [];
      showQR := false;
      scanning := false;
      receivedChunks := [];
      chatHistory := [];
    }

    /** Typing into the message field. */
    method EditMessage(text: string)
      requires Valid()
      modifies this
      ensures Valid()
      ensures message == text
      ensures qrChunks == old(qrChunks) && showQR == old(showQR)
      ensures scanning == old(scanning) && receivedChunks == old(receivedChunks)
      ensures chatHistory == old(chatHistory)
    {
      message := text;
    }

    /**
      `handleGenerateQR`: an empty message changes nothing; otherwise the
      frames of the ciphertext are put on show.
     */
    method HandleGenerateQR()
      requires Valid()
      modifies this
      ensures Valid()
      ensures old(message) == "" ==>
        qrChunks == old(qrChunks) && showQR == old(showQR)
      ensures old(message) != "" ==>
        && qrChunks == Chunks(encrypt(message, contact.key), MaxQrChunk)
        && ReassembleMessage(qrChunks) == encrypt(message, contact.key)
        && |qrChunks| == CeilDiv(|encrypt(message, contact.key)|, MaxQrChunk)
        && showQR
      ensures message == old(message)
      ensures scanning == old(scanning) && receivedChunks == old(receivedChunks)
      ensures chatHistory == old(chatHistory)
    {
      if message == "" {
        return;
      }
      var encrypted := encrypt(message, contact.key);
      var chunks := SplitMessage(encrypted);
      qrChunks := chunks;
      showQR := true;
    }

    /**
      "Save to History" on the frames on show: a sent entry with the current
      message goes first in the history, and the send state is reset. The
      button is only on screen while frames are shown.
     */
    method HandleSaveSent(time: string)
      requires Valid()
      requires showQR && |qrChunks| > 0
      modifies this
      ensures Valid()
      ensures chatHistory == [Entry(Sent, old(message), time)] + old(chatHistory)
      ensures |chatHistory| == |old(chatHistory)| + 1
      ensures qrChunks == [] && !showQR && message == ""
      ensures scanning == old(scanning) && receivedChunks == old(receivedChunks)
    {
      var newHistory := [Entry(Sent, message, time)] + chatHistory;
      chatHistory := newHistory;
      qrChunks := [];
      showQR := false;
      message := "";
    }

    /** "Cancel" under the frames on show: they are discarded, nothing is recorded. */
    method CancelSend()
      requires Valid()
      modifies this
      ensures Valid()
      ensures !showQR && qrChunks == []
      ensures message == old(message) && chatHistory == old(chatHistory)
      ensures scanning == old(scanning) && receivedChunks == old(receivedChunks)
    {
      showQR := false;
      qrChunks := [];
    }

    /** `handleScanQR`: scanning starts with an empty buffer, with nothing left from an earlier attempt. */
    method HandleScanQR()
      requires Valid()
      modifies this
      ensures Valid()
      ensures scanning && receivedChunks == []
      ensures message == old(message) && qrChunks == old(qrChunks) && showQR == old(showQR)
      ensures chatHistory == old(chatHistory)
    {
      scanning := true;
      receivedChunks := [];
    }

    /**
      `handleBarCodeScanned`: the payload goes at the end of the buffer as it
      is, duplicates included. The scanner is only on screen while scanning.
     */
    method HandleBarCodeScanned(data: string)
      requires Valid()
      requires scanning
      modifies this
      ensures Valid()
      ensures receivedChunks == old(receivedChunks) + [data]
      ensures ReassembleMessage(receivedChunks) == ReassembleMessage(old(receivedChunks)) + data
      ensures scanning
      ensures message == old(message) && qrChunks == old(qrChunks) && showQR == old(showQR)
      ensures chatHistory == old(chatHistory)
    {
      ReassembleAppend(receivedChunks, [data]);
      assert ReassembleMessage([data]) == data by {
        assert [data][1..] == [];
      }
      receivedChunks := receivedChunks + [data];
    }

    /**
      `handleFinishReceiving`: the buffer is joined and decrypted. On success
      (`ok`) a received entry goes first in the history, the buffer is
      emptied and scanning stops; on failure nothing changes, so the buffer
      is kept. The button is only enabled once a frame has been scanned.
     */
    method HandleFinishReceiving(time: string) returns (ok: bool)
      requires Valid()
      requires scanning && |receivedChunks| > 0
      modifies this
      ensures Valid()
      ensures ok <==> Decrypted(decrypt(ReassembleMessage(old(receivedChunks)), contact.key))
      ensures ok ==>
        && chatHistory == [Entry(Received, decrypt(ReassembleMessage(old(receivedChunks)), contact.key).value, time)]
                          + old(chatHistory)
        && |chatHistory| == |old(chatHistory)| + 1
        && receivedChunks == [] && !scanning
      ensures !ok ==>
        chatHistory == old(chatHistory) && receivedChunks == old(receivedChunks) && scanning
      ensures message == old(message) && qrChunks == old(qrChunks) && showQR == old(showQR)
    {
      var encrypted := ReassembleMessage(receivedChunks);
      var decrypted := decrypt(encrypted, contact.key);
      ok := Decrypted(decrypted);
      if ok {
        var newHistory := [Entry(Received, decrypted.value, time)] + chatHistory;
        chatHistory := newHistory;
        scanning := false;
        receivedChunks := [];
      }
    }

    /** "Cancel" under the scanner: the buffer is discarded, nothing is recorded. */
    method CancelReceive()
      requires Valid()
      modifies this
      ensures Valid()
      ensures !scanning && receivedChunks == []
      ensures message == old(message) && qrChunks == old(qrChunks) && showQR == old(showQR)
      ensures chatHistory == old(chatHistory)
    {
      scanning := false;
      receivedChunks := [];
    }
  }

  /**
    One exchange between two devices: the sender shows the frames of its
    message, the receiver scans them one by one in the order shown and then
    finishes. Given that the receiver's `decrypt` recovers the message from
    the sender's ciphertext, the message lands first in the receiver's history.
   */
  method Exchange(sender: ChatSession, receiver: ChatSession, time: string) returns (ok: bool)
    requires sender != receiver
    requires sender.Valid() && receiver.Valid()
    requires sender.message != "" && sender.encrypt(sender.message, sender.contact.key) != ""
    requires receiver.decrypt(sender.encrypt(sender.message, sender.contact.key), receiver.contact.key)
             == Some(sender.message)
    modifies sender, receiver
    ensures sender.Valid() && receiver.Valid()
    ensures ok
    ensures receiver.chatHistory == [Entry(Received, old(sender.message), time)] + old(receiver.chatHistory)
    ensures !receiver.scanning && receiver.receivedChunks == []
    ensures sender.showQR && sender.chatHistory == old(sender.chatHistory)
  {
    sender.HandleGenerateQR();
    var frames := sender.qrChunks;
    ChunksCount(sender.encrypt(sender.message, sender.contact.key), MaxQrChunk);
    receiver.HandleScanQR();
    var i := 0;
    while i < |frames|
      invariant 0 <= i <= |frames|
      invariant receiver.Valid() && receiver.scanning
      invariant receiver.receivedChunks == frames[..i]
      invariant receiver.chatHistory == old(receiver.chatHistory)
      invariant sender.Valid() && sender.qrChunks == frames && sender.showQR
      invariant sender.message == old(sender.message) && sender.chatHistory == old(sender.chatHistory)
    {
      receiver.HandleBarCodeScanned(frames[i]);
      assert frames[..i] + [frames[i]] == frames[..i + 1];
      i := i + 1;
    }
    assert frames[..i] == frames;
    ok := receiver.HandleFinishReceiving(time);
  }
}

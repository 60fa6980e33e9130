/** The QuickDrop wire messages (internal/drop/types.go) and their metadata rules. */
module Protocol {
  import opened Common

  const DEFAULT_CHUNK_SIZE: int := 0x10_0000
  const MAX_CHUNK_SIZE: int := 0x20_0000
  const DIGEST_SIZE: nat := 32

  datatype DropKind = TextDrop | FileDrop | UnsupportedKind

  /**
   * Sender to receiver: the transfer's metadata. `wellFormedText` stands for the
   * character-level checks on identifiers, names, types and paths; `headHash` is
   * the decoded head digest, None when the field is empty. `relPath` is the
   * place inside a directory that is sent file by file, empty otherwise.
   */
  datatype DropSend = DropSend(
    dropId: string, kind: DropKind, name: string, size: int, mimeType: string,
    chunkSize: int, headHash: Option<Digest>, key: string, relPath: string, wellFormedText: bool)

  datatype DropAck = DropAck(dropId: string, accepted: bool, receivedBytes: int)

  /** One chunk; `sha` is the decoded payload digest, None when absent or not a digest. */
  datatype DropData = DropData(dropId: string, index: int, data: Bytes, final: bool, sha: Option<Digest>)

  datatype DropComplete = DropComplete(dropId: string, success: bool, bytes: int, sha: Option<Digest>, duplicate: bool)

  /** What a peer takes from the channel; Garbled has the awaited type but does not decode. */
  datatype Msg =
    | Heartbeat
    | SendMsg(send: DropSend)
    | AckMsg(ack: DropAck)
    | DataMsg(chunk: DropData)
    | CompleteMsg(complete: DropComplete)
    | Garbled
    | Unrelated

  const MAX_KEY_LENGTH: int := 128

  predicate IdentifierChar(c: char) {
    'a' <= c <= 'z' || 'A' <= c <= 'Z' || '0' <= c <= '9' || c == '-' || c == '_' || c == '.'
  }

  predicate ValidKey(s: string) {
    0 < |s| <= MAX_KEY_LENGTH && forall i | 0 <= i < |s| :: IdentifierChar(s[i])
  }

  lemma ValidKeyIsNotBlank(k: string)
    requires ValidKey(k)
    ensures TrimSpace(k) != ""
  {
    assert IdentifierChar(k[0]) && IdentifierChar(k[|k| - 1]);
  }

  predicate ValidMetadata(m: DropSend) {
    && m.wellFormedText
    && (m.key == "" || ValidKey(m.key))
    && m.kind != UnsupportedKind
    && m.size >= 0
    && 0 <= m.chunkSize <= MAX_CHUNK_SIZE
    && (m.headHash.Some? ==> |m.headHash.value| == DIGEST_SIZE)
  }

  /**
   * Metadata the protocol admits: a text or a file of a size that is not negative,
   * chunks of at most 2 MiB, a head digest of 32 bytes or none, and a key of at
   * most 128 letters, digits, dashes, underscores and dots, or none.
   */
  ghost predicate Admitted(m: DropSend) {
    && m.wellFormedText && (m.kind == TextDrop || m.kind == FileDrop)
    && 0 <= m.size && 0 <= m.chunkSize <= 0x20_0000
    && (m.headHash.Some? ==> |m.headHash.value| == 32)
    && |m.key| <= 128
    && forall i | 0 <= i < |m.key| ::
      'a' <= m.key[i] <= 'z' || 'A' <= m.key[i] <= 'Z' || '0' <= m.key[i] <= '9' || m.key[i] in "-_."
  }

  lemma MetadataIsValidIff(m: DropSend)
    ensures ValidMetadata(m) <==> Admitted(m)
  {
    if m.key == "" {
      assert Admitted(m) <==> ValidMetadata(m);
    } else {
      assert forall i | 0 <= i < |m.key| :: IdentifierChar(m.key[i]) <==>
        'a' <= m.key[i] <= 'z' || 'A' <= m.key[i] <= 'Z' || '0' <= m.key[i] <= '9' || m.key[i] in "-_.";
    }
  }

  function NegotiatedChunk(m: DropSend): int {
    if m.chunkSize <= 0 then DEFAULT_CHUNK_SIZE else m.chunkSize
  }
}

/** The document-upload route: takes the `file` entry of a multipart form,
    stores it under a timestamped, sanitised name and answers with a mock IPFS
    URI. The disk write is modelled by whether it succeeded. */
module Upload {
  import opened Wrappers
  import Text

  /** Characters the name sanitiser keeps: ASCII letters, digits, '.' and '-'. */
  predicate Kept(ch: char) {
    ('a' <= ch <= 'z') || ('A' <= ch <= 'Z') || ('0' <= ch <= '9') || ch == '.' || ch == '-'
  }

  /** Characters a sanitised name may contain. */
  predicate SafeChar(ch: char) {
    Kept(ch) || ch == '_'
  }

  /** `name.replace(/[^a-zA-Z0-9.-]/g, '_')`. */
  function Sanitize(name: string): (r: string)
    ensures |r| == |name|
    ensures forall i :: 0 <= i < |name| ==> (Kept(name[i]) ==> r[i] == name[i]) && (!Kept(name[i]) ==> r[i] == '_')
    ensures forall i :: 0 <= i < |r| ==> SafeChar(r[i])
  {
    seq(|name|, i requires 0 <= i < |name| => if Kept(name[i]) then name[i] else '_')
  }

  /** Sanitising a sanitised name changes nothing: '_' is not kept, but is
      replaced by itself. */
  lemma SanitizeIdempotent(name: string)
    ensures Sanitize(Sanitize(name)) == Sanitize(name)
  {
    var r := Sanitize(name);
    assert forall i :: 0 <= i < |r| ==> Sanitize(r)[i] == r[i];
  }

  /** The `file` entry of the form: missing, a text value, or a file by name. */
  datatype FormEntry = NoEntry | TextEntry(text: string) | FileEntry(name: string)

  datatype Reply =
    | Uploaded(filename: string, ipfsUri: string)   // 200
    | NoFile                                        // 400
    | Failed                                        // 500

  /** `${Date.now()}_${sanitised name}`. */
  function StoredName(now: nat, name: string): string {
    Text.NatToString(now) + "_" + Sanitize(name)
  }

  /** The first '_' of a stored name ends the timestamp, so the name splits
      back into the time it was stored and the sanitised original name. */
  lemma StoredNameSplits(now: nat, name: string)
    ensures var stored := StoredName(now, name);
            var cut := |Text.NatToString(now)|;
            && Text.FindFrom(stored, "_", 0) == Some(cut)
            && Text.DecimalValue(stored[..cut]) == now
            && stored[cut + 1..] == Sanitize(name)
  {
    var digits := Text.NatToString(now);
    var stored := StoredName(now, name);
    var cut := |digits|;
    assert stored[..cut] == digits;
    assert Text.OccursAt(stored, "_", cut) by { assert stored[cut..cut + 1] == "_"; }
    forall k: nat | k < cut
      ensures !Text.OccursAt(stored, "_", k)
    {
      assert stored[k] == digits[k];
      assert Text.IsDigit(digits[k]);
      assert stored[k..k + 1][0] == stored[k];
    }
  }

  /** The mock URI: "ipfs://QmFake", a random fragment, '/', the stored name. */
  function MockUri(fragment: string, stored: string): string {
    "ipfs://QmFake" + fragment + "/" + stored
  }

  /** POST /api/upload-document. Returns the reply and the name written to the
      uploads directory, if any. A missing or empty entry is refused with 400
      before anything is written; a text entry has no contents to read and
      fails with 500. */
  function Post(entry: FormEntry, now: nat, fragment: string, writeOk: bool): (r: (Reply, Option<string>))
    ensures r.0 == NoFile <==> entry == NoEntry || entry == TextEntry("")
    ensures r.0.Uploaded? <==> entry.FileEntry? && writeOk
    ensures r.1.Some? <==> r.0.Uploaded?
    ensures r.0.Uploaded? ==>
              && r.0.filename == StoredName(now, entry.name)
              && r.1 == Some(r.0.filename)
              && r.0.ipfsUri == MockUri(fragment, r.0.filename)
  {
    match entry
    case NoEntry => (NoFile, None)
    case TextEntry(text) => if text == "" then (NoFile, None) else (Failed, None)
    case FileEntry(name) =>
      var stored := StoredName(now, name);
      if writeOk then (Uploaded(stored, MockUri(fragment, stored)), Some(stored)) else (Failed, None)
  }
}

/** `config/keys/` and `controllers/keyExchangeController.js`: the key directory as a record of
    optional file contents, the endpoint that stores the frontend's public key and the one that
    hands out the backend's. */
module KeyExchange {
  import opened Wrappers
  import opened Values
  import Text
  import RsaUtils

  /** The key directory: whether it exists, and the three PEM files it may hold. */
  datatype KeyDir = KeyDir(
    present: bool,
    backendPrivate: Option<string>,
    backendPublic: Option<string>,
    frontendPublic: Option<string>)

  /** A directory that does not exist holds no files. */
  predicate Valid(dir: KeyDir) {
    !dir.present ==> dir.backendPrivate.None? && dir.backendPublic.None? && dir.frontendPublic.None?
  }

  const InvalidFormat := Reply(400, "Invalid public key format", map[])
  const SaveFailed := Reply(500, "Failed to save frontend public key", map[])
  const Saved := Reply(200, "Frontend public key saved successfully", map[])
  const LoadFailed := Reply(500, "Failed to load backend public key", map[])

  /** `!publicKey || !publicKey.includes('BEGIN PUBLIC KEY')`: `None` where `includes` is not a
      method of the value and the test throws. A string is searched for the text; an array for
      an element equal to it. */
  function Rejected(publicKey: Option<Value>): (r: Option<bool>)
    ensures r == Some(false) <==>
              && publicKey.Some?
              && ((publicKey.value.Str? && Text.Contains(publicKey.value.s, RsaUtils.PublicMarker))
                  || (publicKey.value.StrArray? && RsaUtils.PublicMarker in publicKey.value.items))
    ensures r.None? <==> publicKey.Some? && Truthy(publicKey.value) && !publicKey.value.Str? && !publicKey.value.StrArray?
  {
    if publicKey.None? || !Truthy(publicKey.value) then Some(true)
    else
      match publicKey.value
      case Str(s) => Some(!Text.Contains(s, RsaUtils.PublicMarker))
      case StrArray(items) => Some(RsaUtils.PublicMarker !in items)
      case _ => None
  }

  /** What a write cut short leaves in the file: `writeFileSync` opens with flag 'w', which
      empties the file, so it holds a prefix of `text`, empty when nothing was written. */
  function Cut(text: string, written: nat): (s: string)
    ensures s <= text
    ensures |s| == if written < |text| then written else |text|
  {
    if written < |text| then text[..written] else text
  }

  /** How a `writeFileSync` of one file ends: it succeeds, it fails before the file is opened
      (the directory is missing, permission is refused) and leaves it as it was, or it fails
      after the open (a full disk, an I/O error) with only the first `written` characters
      there. */
  datatype WriteFault = Written | FailsBeforeOpen | CutAfter(written: nat)

  /** `saveFrontendPublicKey`: `fault` is how the file write ends. Only a string can be written;
      an array that passed the test makes `writeFileSync` throw before it opens the file. */
  function SaveFrontendPublicKey(dir: KeyDir, body: Body, fault: WriteFault): (o: (KeyDir, Reply))
    ensures o.1 == InvalidFormat <==> Rejected(if "publicKey" in body then Some(body["publicKey"]) else None) == Some(true)
    ensures o.1 == Saved <==>
              && "publicKey" in body && body["publicKey"].Str?
              && Text.Contains(body["publicKey"].s, RsaUtils.PublicMarker)
              && dir.present && fault.Written?
    ensures o.1 == Saved ==> o.0 == dir.(frontendPublic := Some(body["publicKey"].s))
    ensures o.1 == SaveFailed && fault.CutAfter? && body["publicKey"].Str? && dir.present ==>
              o.0 == dir.(frontendPublic := Some(Cut(body["publicKey"].s, fault.written)))
    ensures o.1 != Saved && !fault.CutAfter? ==> o.0 == dir
    ensures o.1 in {InvalidFormat, Uncaught} ==> o.0 == dir
    ensures o.0 == dir.(frontendPublic := o.0.frontendPublic)
    ensures o.1 in {InvalidFormat, SaveFailed, Saved, Uncaught}
    ensures Valid(dir) ==> Valid(o.0)
  {
    var publicKey := if "publicKey" in body then Some(body["publicKey"]) else None;
    match Rejected(publicKey)
    case None => (dir, Uncaught)
    case Some(true) => (dir, InvalidFormat)
    case Some(false) =>
      if !publicKey.value.Str? || !dir.present || fault.FailsBeforeOpen? then (dir, SaveFailed)
      else if fault.CutAfter? then (dir.(frontendPublic := Some(Cut(publicKey.value.s, fault.written))), SaveFailed)
      else (dir.(frontendPublic := Some(publicKey.value.s)), Saved)
  }

  /** A write that fails right after the open has already emptied the file: the old frontend key
      is lost and nothing usable replaces it, though the client is told the save failed. */
  lemma CutSaveLosesOldFrontendKey(dir: KeyDir, key: string)
    requires dir.present && Text.Contains(key, RsaUtils.PublicMarker)
    ensures SaveFrontendPublicKey(dir, map["publicKey" := Str(key)], CutAfter(0))
            == (dir.(frontendPublic := Some("")), SaveFailed)
    ensures !Text.Contains("", RsaUtils.PublicMarker)
  {
    assert Cut(key, 0) == "";
  }

  /** The test is a plain substring search: any text with the marker somewhere in it is stored,
      verbatim. */
  lemma MarkerAnywhereAccepted(dir: KeyDir, before: string, after: string)
    requires dir.present
    ensures SaveFrontendPublicKey(dir, map["publicKey" := Str(before + RsaUtils.PublicMarker + after)], Written)
            == (dir.(frontendPublic := Some(before + RsaUtils.PublicMarker + after)), Saved)
  {
    Text.ContainsInMiddle(before, RsaUtils.PublicMarker, after);
  }

  /** A public key from the key generator is accepted. */
  lemma GeneratedKeyAccepted(rsa: RsaUtils.Rsa, o: RsaUtils.KeyGenOptions, seed: nat, dir: KeyDir)
    requires RsaUtils.Sound(rsa) && dir.present
    ensures SaveFrontendPublicKey(dir, map["publicKey" := Str(rsa.generate(o, seed).publicKey)], Written).1 == Saved
  {
  }

  /** A second accepted key replaces the first: no earlier key is retained. */
  lemma LastSaveWins(dir: KeyDir, body1: Body, body2: Body)
    requires SaveFrontendPublicKey(dir, body1, Written).1 == Saved
    requires SaveFrontendPublicKey(SaveFrontendPublicKey(dir, body1, Written).0, body2, Written).1 == Saved
    ensures SaveFrontendPublicKey(SaveFrontendPublicKey(dir, body1, Written).0, body2, Written).0
            == SaveFrontendPublicKey(dir, body2, Written).0
  {
  }

  /** `getBackendPublicKey`: `readFails` stands for a failure of the read; a missing file fails
      the same way. */
  function GetBackendPublicKey(dir: KeyDir, readFails: bool): (r: Reply)
    ensures r.status == 200 <==> dir.backendPublic.Some? && !readFails
    ensures r.status == 200 ==> r.json == map["publicKey" := Str(dir.backendPublic.value)]
    ensures r.status != 200 ==> r == LoadFailed
  {
    if dir.backendPublic.None? || readFails then LoadFailed
    else Reply(200, "", map["publicKey" := Str(dir.backendPublic.value)])
  }

  /** Storing the frontend key leaves the backend key that is handed out as it was. */
  lemma SaveKeepsBackendKey(dir: KeyDir, body: Body, fault: WriteFault, readFails: bool)
    ensures GetBackendPublicKey(SaveFrontendPublicKey(dir, body, fault).0, readFails) == GetBackendPublicKey(dir, readFails)
  {
  }
}

/** The listed-field loops shared by the four field middlewares: each listed field of the request
    body is passed through `encryptAES` or `decryptAES` in turn, in list order. */
module FieldCrypto {
  import opened Wrappers
  import opened Values
  import opened AesUtils
  import Hex
  import Json

  /** The IVs `encryptAES` draws: the i-th listed field is encrypted with `ivs(n + i)`. */
  type IvStream = nat -> Iv

  /** Values the cipher accepts: strings, and arrays once they are JSON-stringified. */
  predicate Encryptable(v: Value) {
    v.Str? || v.StrArray?
  }

  /** The text a value is encrypted as: an array becomes its JSON, a string stays as it is;
      any other value reaches `cipher.update`, which throws. */
  function Plaintext(v: Value): (r: Result<string, CryptoError>)
    ensures r.Success? <==> Encryptable(v)
  {
    match v
    case Str(s) => Success(s)
    case StrArray(xs) => Success(Json.Stringify(xs))
    case _ => Failure(NotAString)
  }

  /** What an encryptable value is after encryption and decryption: its plaintext, as a string. */
  function AsText(v: Value): Value {
    match v
    case StrArray(xs) => Str(Json.Stringify(xs))
    case _ => v
  }

  predicate KeyOk(key: string) {
    |Hex.Decode(key)| == KeyBytes
  }

  predicate NoDuplicates(fields: seq<string>) {
    forall i, j :: 0 <= i < j < |fields| ==> fields[i] != fields[j]
  }

  /** One iteration of `encryptFieldsAES`: a field that is `undefined` is skipped. */
  function EncryptField(aes: Aes, body: Body, field: string, key: string, iv: Iv): (r: Result<Body, CryptoError>)
    ensures r.Success? <==> (field in body ==> KeyOk(key) && Encryptable(body[field]))
    ensures r.Success? ==> r.value.Keys == body.Keys
    ensures r.Success? ==> forall k | k in body && k != field :: r.value[k] == body[k]
    ensures r.Success? && field in body ==> r.value[field].Str? && IsEnvelope(r.value[field].s)
  {
    if field !in body then Success(body)
    else
      var text :- Plaintext(body[field]);
      var c :- EncryptAES(aes, text, key, iv);
      Success(body[field := Str(c)])
  }

  /** `fields.forEach(...)` over `EncryptField`; the first exception aborts the loop. */
  function EncryptFields(aes: Aes, body: Body, fields: seq<string>, key: string, ivs: IvStream, n: nat): (r: Result<Body, CryptoError>)
    ensures r.Success? <==> forall i | 0 <= i < |fields| && fields[i] in body :: KeyOk(key) && Encryptable(body[fields[i]])
    ensures r.Success? ==> r.value.Keys == body.Keys
    ensures r.Success? ==> forall k | k in body && k !in fields :: r.value[k] == body[k]
    ensures r.Success? ==> forall k | k in body && k in fields :: r.value[k].Str? && IsEnvelope(r.value[k].s)
    decreases |fields|
  {
    if fields == [] then Success(body)
    else
      match EncryptField(aes, body, fields[0], key, ivs(n))
      case Failure(e) => Failure(e)
      case Success(next) =>
        var r := EncryptFields(aes, next, fields[1..], key, ivs, n + 1);
        assert forall i | 0 <= i < |fields| - 1 :: fields[1..][i] == fields[i + 1];
        assert forall i | 1 <= i < |fields| :: fields[i] == fields[1..][i - 1];
        r
  }

  /** Which present values a decryption loop touches: `decryptFieldsAES` takes every value that
      is not `undefined`, `middleware/decryptAES.js` only truthy ones. */
  datatype Guard = Defined | TruthyOnly

  predicate Selected(g: Guard, v: Value) {
    g == Defined || Truthy(v)
  }

  /** One iteration of a decryption loop: a selected value that is not a string makes
      `data.split` throw. */
  function DecryptField(aes: Aes, body: Body, field: string, key: string, g: Guard): (r: Result<Body, CryptoError>)
    ensures r.Success? ==> r.value.Keys == body.Keys
    ensures r.Success? ==> forall k | k in body && k != field :: r.value[k] == body[k]
    ensures field in body && Selected(g, body[field]) && !body[field].Str? ==> r.Failure?
    ensures r.Success? && field in body && Selected(g, body[field]) ==>
              r.value[field].Str? && DecryptAES(aes, body[field].s, key) == Success(r.value[field].s)
    ensures field in body && !Selected(g, body[field]) ==> r == Success(body)
  {
    if field !in body || !Selected(g, body[field]) then Success(body)
    else if !body[field].Str? then Failure(NotAString)
    else
      var p :- DecryptAES(aes, body[field].s, key);
      Success(body[field := Str(p)])
  }

  /** The decryption loop. */
  function DecryptFields(aes: Aes, body: Body, fields: seq<string>, key: string, g: Guard): (r: Result<Body, CryptoError>)
    ensures r.Success? ==> r.value.Keys == body.Keys
    ensures r.Success? ==> forall k | k in body && k !in fields :: r.value[k] == body[k]
    ensures r.Success? ==> forall k | k in body && !Selected(g, body[k]) :: r.value[k] == body[k]
    ensures r.Success? ==> forall i | 0 <= i < |fields| && fields[i] in body && Selected(g, body[fields[i]]) :: body[fields[i]].Str?
    decreases |fields|
  {
    if fields == [] then Success(body)
    else
      match DecryptField(aes, body, fields[0], key, g)
      case Failure(e) => Failure(e)
      case Success(next) =>
        var r := DecryptFields(aes, next, fields[1..], key, g);
        assert forall i | 1 <= i < |fields| :: fields[i] == fields[1..][i - 1];
        r
  }

  /** The body a successful round trip leaves: listed fields as their plaintext strings. */
  function Flatten(body: Body, fields: seq<string>): (r: Body)
    ensures r.Keys == body.Keys
  {
    map k | k in body :: if k in fields then AsText(body[k]) else body[k]
  }

  /** Encrypting other fields commutes with overwriting a field that is not listed. */
  lemma {:induction false} EncryptFieldsUpdate(aes: Aes, body: Body, fields: seq<string>, key: string, ivs: IvStream, n: nat, f: string, v: Value)
    requires f in body && f !in fields
    ensures EncryptFields(aes, body[f := v], fields, key, ivs, n).Success? == EncryptFields(aes, body, fields, key, ivs, n).Success?
    ensures EncryptFields(aes, body, fields, key, ivs, n).Success? ==>
              EncryptFields(aes, body[f := v], fields, key, ivs, n).value == EncryptFields(aes, body, fields, key, ivs, n).value[f := v]
    decreases |fields|
  {
    if fields != [] {
      var g := fields[0];
      assert g != f;
      var r1 := EncryptField(aes, body, g, key, ivs(n));
      var r2 := EncryptField(aes, body[f := v], g, key, ivs(n));
      assert r1.Success? == r2.Success?;
      if r1.Success? {
        if g in body {
          assert r2.value == r1.value[f := v];
        } else {
          assert r2.value == body[f := v] == r1.value[f := v];
        }
        assert f in r1.value;
        EncryptFieldsUpdate(aes, r1.value, fields[1..], key, ivs, n + 1, f, v);
      }
    }
  }

  /** Encrypting a present field stores the envelope of its plaintext. */
  lemma EncryptFieldValue(aes: Aes, body: Body, f: string, key: string, iv: Iv)
    requires KeyOk(key) && f in body && Encryptable(body[f])
    ensures EncryptField(aes, body, f, key, iv).Success?
    ensures EncryptField(aes, body, f, key, iv).value
            == body[f := Str(EncryptAES(aes, Plaintext(body[f]).value, key, iv).value)]
  {
  }

  /** A selected field holding an envelope of `p` decrypts to `p`. */
  lemma DecryptFieldValue(aes: Aes, x: Body, f: string, key: string, g: Guard, p: string)
    requires f in x && x[f].Str? && x[f].s != ""
    requires DecryptAES(aes, x[f].s, key) == Success(p)
    ensures DecryptField(aes, x, f, key, g) == Success(x[f := Str(p)])
  {
  }

  /** After the other fields are encrypted too, the first field still holds its envelope and
      decrypts to its plaintext. */
  lemma FirstFieldDecrypts(aes: Aes, body: Body, f: string, key: string, iv: Iv, b1: Body, x: Body, g: Guard)
    requires Sound(aes) && KeyOk(key)
    requires f in body && Encryptable(body[f])
    requires EncryptField(aes, body, f, key, iv) == Success(b1)
    requires f in x && x[f] == b1[f]
    ensures DecryptField(aes, x, f, key, g) == Success(x[f := AsText(body[f])])
  {
    var text := Plaintext(body[f]).value;
    EncryptFieldValue(aes, body, f, key, iv);
    DecryptEncrypt(aes, text, key, iv);
    DecryptFieldValue(aes, x, f, key, g, text);
  }

  lemma FlattenStep(body: Body, f: string, rest: seq<string>, b1x: Body)
    requires f in body && f !in rest
    requires b1x == body[f := AsText(body[f])]
    ensures Flatten(b1x, rest) == Flatten(body, [f] + rest)
  {
    forall k | k in body ensures Flatten(b1x, rest)[k] == Flatten(body, [f] + rest)[k] {
      if k == f {
      } else {
        assert b1x[k] == body[k];
      }
    }
  }

  lemma NoDuplicatesTail(fields: seq<string>)
    requires fields != [] && NoDuplicates(fields)
    ensures fields[0] !in fields[1..] && NoDuplicates(fields[1..])
  {
    forall i | 0 <= i < |fields[1..]| ensures fields[1..][i] != fields[0] {
      assert fields[1..][i] == fields[i + 1];
    }
  }

  lemma EncryptFieldsStep(aes: Aes, body: Body, fields: seq<string>, key: string, ivs: IvStream, n: nat, b1: Body)
    requires fields != []
    requires EncryptField(aes, body, fields[0], key, ivs(n)) == Success(b1)
    ensures EncryptFields(aes, body, fields, key, ivs, n) == EncryptFields(aes, b1, fields[1..], key, ivs, n + 1)
  {
  }

  lemma DecryptFieldsStep(aes: Aes, x: Body, fields: seq<string>, key: string, g: Guard, x1: Body)
    requires fields != []
    requires DecryptField(aes, x, fields[0], key, g) == Success(x1)
    ensures DecryptFields(aes, x, fields, key, g) == DecryptFields(aes, x1, fields[1..], key, g)
  {
  }

  /** Every selected listed field is a string that decrypts under the key. */
  predicate AllDecrypt(aes: Aes, body: Body, fields: seq<string>, key: string, g: Guard) {
    forall k | k in body && k in fields && Selected(g, body[k]) :: body[k].Str? && DecryptAES(aes, body[k].s, key).Success?
  }

  /** `r` holds, in each selected listed field of `body`, the decryption of that field's value. */
  predicate DecryptsTo(aes: Aes, body: Body, fields: seq<string>, key: string, g: Guard, r: Body) {
    forall k | k in body && k in fields && Selected(g, body[k]) ::
      && body[k].Str? && k in r && r[k].Str? && DecryptAES(aes, body[k].s, key) == Success(r[k].s)
  }

  /** What the decryption loop does to any body, not only to one it encrypted itself: over
      distinct fields it succeeds exactly when every selected listed field is a string that
      decrypts, and then each such field holds its decryption. */
  lemma {:induction false} DecryptFieldsValues(aes: Aes, body: Body, fields: seq<string>, key: string, g: Guard)
    requires NoDuplicates(fields)
    ensures DecryptFields(aes, body, fields, key, g).Success? <==> AllDecrypt(aes, body, fields, key, g)
    ensures DecryptFields(aes, body, fields, key, g).Success? ==>
              DecryptsTo(aes, body, fields, key, g, DecryptFields(aes, body, fields, key, g).value)
    decreases |fields|
  {
    if fields != [] {
      var f, rest := fields[0], fields[1..];
      NoDuplicatesTail(fields);
      assert forall k :: k in fields <==> k == f || k in rest by {
        assert fields == [f] + rest;
      }
      match DecryptField(aes, body, f, key, g)
      case Failure(_) =>
        assert f in body && Selected(g, body[f]);
      case Success(next) =>
        DecryptFieldsStep(aes, body, fields, key, g, next);
        DecryptFieldsValues(aes, next, rest, key, g);
        DecryptFieldsValuesStep(aes, body, f, rest, key, g, next);
    }
  }

  /** `DecryptFieldsValues` for a list that may repeat a field. */
  lemma DecryptFieldsValuesWhenDistinct(aes: Aes, body: Body, fields: seq<string>, key: string, g: Guard)
    ensures NoDuplicates(fields) ==>
              && (DecryptFields(aes, body, fields, key, g).Success? <==> AllDecrypt(aes, body, fields, key, g))
              && (DecryptFields(aes, body, fields, key, g).Success? ==>
                    DecryptsTo(aes, body, fields, key, g, DecryptFields(aes, body, fields, key, g).value))
  {
    if NoDuplicates(fields) {
      DecryptFieldsValues(aes, body, fields, key, g);
    }
  }

  /** The inductive step of `DecryptFieldsValues`, for a first field that decrypted to `next`. */
  lemma DecryptFieldsValuesStep(aes: Aes, body: Body, f: string, rest: seq<string>, key: string, g: Guard, next: Body)
    requires f !in rest
    requires DecryptField(aes, body, f, key, g) == Success(next)
    requires DecryptFields(aes, next, rest, key, g).Success? <==> AllDecrypt(aes, next, rest, key, g)
    requires DecryptFields(aes, next, rest, key, g).Success? ==>
               DecryptsTo(aes, next, rest, key, g, DecryptFields(aes, next, rest, key, g).value)
    ensures AllDecrypt(aes, body, [f] + rest, key, g) <==> AllDecrypt(aes, next, rest, key, g)
    ensures DecryptFields(aes, next, rest, key, g).Success? ==>
              DecryptsTo(aes, body, [f] + rest, key, g, DecryptFields(aes, next, rest, key, g).value)
  {
    var fields := [f] + rest;
    if AllDecrypt(aes, next, rest, key, g) {
      forall k | k in body && k in fields && Selected(g, body[k])
        ensures body[k].Str? && DecryptAES(aes, body[k].s, key).Success?
      {
        if k != f {
          assert k in rest && next[k] == body[k];
        }
      }
    }
    if AllDecrypt(aes, body, fields, key, g) {
      forall k | k in next && k in rest && Selected(g, next[k])
        ensures next[k].Str? && DecryptAES(aes, next[k].s, key).Success?
      {
        assert k != f && next[k] == body[k] && k in fields;
      }
    }
    if DecryptFields(aes, next, rest, key, g).Success? {
      var r := DecryptFields(aes, next, rest, key, g).value;
      forall k | k in body && k in fields && Selected(g, body[k])
        ensures body[k].Str? && k in r && r[k].Str? && DecryptAES(aes, body[k].s, key) == Success(r[k].s)
      {
        if k == f {
          assert r[f] == next[f];
        } else {
          assert k in rest && next[k] == body[k];
        }
      }
    }
  }

  /** One step of the round trip: if it holds for the other fields over a body whose first
      field is already plaintext, it holds for all fields. */
  lemma RoundTripStep(aes: Aes, body: Body, fields: seq<string>, key: string, ivs: IvStream, n: nat, g: Guard)
    requires Sound(aes) && KeyOk(key)
    requires fields != [] && fields[0] in body && Encryptable(body[fields[0]]) && fields[0] !in fields[1..]
    requires var flat := body[fields[0] := AsText(body[fields[0]])];
             && EncryptFields(aes, flat, fields[1..], key, ivs, n + 1).Success?
             && DecryptFields(aes, EncryptFields(aes, flat, fields[1..], key, ivs, n + 1).value, fields[1..], key, g)
                == Success(Flatten(flat, fields[1..]))
    ensures EncryptFields(aes, body, fields, key, ivs, n).Success?
    ensures DecryptFields(aes, EncryptFields(aes, body, fields, key, ivs, n).value, fields, key, g) == Success(Flatten(body, fields))
  {
    var f, rest := fields[0], fields[1..];
    var v := AsText(body[f]);
    var flat := body[f := v];
    EncryptHead(aes, body, fields, key, ivs, n);
    var b1 := EncryptField(aes, body, f, key, ivs(n)).value;
    var x := EncryptFields(aes, body, fields, key, ivs, n).value;
    FirstFieldDecrypts(aes, body, f, key, ivs(n), b1, x, g);
    DecryptFieldsStep(aes, x, fields, key, g, x[f := v]);
    assert DecryptFields(aes, x[f := v], rest, key, g) == Success(Flatten(flat, rest));
    FlattenStep(body, f, rest, flat);
    assert fields == [f] + rest;
  }

  /** Encrypting all fields is encrypting the first, then the rest; overwriting the first with
      its plaintext gives what encrypting the rest alone over the flattened body gives. */
  lemma EncryptHead(aes: Aes, body: Body, fields: seq<string>, key: string, ivs: IvStream, n: nat)
    requires KeyOk(key)
    requires fields != [] && fields[0] in body && Encryptable(body[fields[0]]) && fields[0] !in fields[1..]
    requires EncryptFields(aes, body[fields[0] := AsText(body[fields[0]])], fields[1..], key, ivs, n + 1).Success?
    ensures EncryptField(aes, body, fields[0], key, ivs(n)).Success?
    ensures EncryptFields(aes, body, fields, key, ivs, n).Success?
    ensures fields[0] in EncryptFields(aes, body, fields, key, ivs, n).value
    ensures EncryptFields(aes, body, fields, key, ivs, n).value[fields[0]] == EncryptField(aes, body, fields[0], key, ivs(n)).value[fields[0]]
    ensures EncryptFields(aes, body[fields[0] := AsText(body[fields[0]])], fields[1..], key, ivs, n + 1).value
            == EncryptFields(aes, body, fields, key, ivs, n).value[fields[0] := AsText(body[fields[0]])]
  {
    var f, rest := fields[0], fields[1..];
    var v := AsText(body[f]);
    EncryptFieldValue(aes, body, f, key, ivs(n));
    var b1 := EncryptField(aes, body, f, key, ivs(n)).value;
    assert b1[f := v] == body[f := v];
    EncryptFieldsStep(aes, body, fields, key, ivs, n, b1);
    EncryptFieldsUpdate(aes, b1, rest, key, ivs, n + 1, f, v);
  }

  /** Decrypting what was encrypted, with the same key and the same list of distinct fields,
      gives back every string field; array fields come back as their JSON text. */
  lemma {:induction false} DecryptEncryptFields(aes: Aes, body: Body, fields: seq<string>, key: string, ivs: IvStream, n: nat, g: Guard)
    requires Sound(aes)
    requires KeyOk(key)
    requires NoDuplicates(fields)
    requires forall i | 0 <= i < |fields| && fields[i] in body :: Encryptable(body[fields[i]])
    ensures EncryptFields(aes, body, fields, key, ivs, n).Success?
    ensures DecryptFields(aes, EncryptFields(aes, body, fields, key, ivs, n).value, fields, key, g) == Success(Flatten(body, fields))
    decreases |fields|
  {
    if fields == [] {
      assert Flatten(body, fields) == body;
    } else {
      var f := fields[0];
      NoDuplicatesTail(fields);
      var flat := if f in body then body[f := AsText(body[f])] else body;
      TailEncryptable(body, fields, flat);
      DecryptEncryptFields(aes, flat, fields[1..], key, ivs, n + 1, g);
      if f in body {
        RoundTripStep(aes, body, fields, key, ivs, n, g);
      } else {
        SkipStep(aes, body, fields, key, ivs, n, g);
      }
    }
  }

  lemma TailEncryptable(body: Body, fields: seq<string>, flat: Body)
    requires fields != []
    requires forall i | 0 <= i < |fields| && fields[i] in body :: Encryptable(body[fields[i]])
    requires flat == if fields[0] in body then body[fields[0] := AsText(body[fields[0]])] else body
    ensures forall i | 0 <= i < |fields[1..]| && fields[1..][i] in flat :: Encryptable(flat[fields[1..][i]])
  {
    forall i | 0 <= i < |fields[1..]| && fields[1..][i] in flat ensures Encryptable(flat[fields[1..][i]]) {
      assert fields[1..][i] == fields[i + 1];
    }
  }

  /** The round-trip step for a first field that is absent from the body. */
  lemma SkipStep(aes: Aes, body: Body, fields: seq<string>, key: string, ivs: IvStream, n: nat, g: Guard)
    requires fields != [] && fields[0] !in body
    requires && EncryptFields(aes, body, fields[1..], key, ivs, n + 1).Success?
             && DecryptFields(aes, EncryptFields(aes, body, fields[1..], key, ivs, n + 1).value, fields[1..], key, g)
                == Success(Flatten(body, fields[1..]))
    ensures EncryptFields(aes, body, fields, key, ivs, n).Success?
    ensures DecryptFields(aes, EncryptFields(aes, body, fields, key, ivs, n).value, fields, key, g) == Success(Flatten(body, fields))
  {
    EncryptFieldsStep(aes, body, fields, key, ivs, n, body);
    var x := EncryptFields(aes, body, fields[1..], key, ivs, n + 1).value;
    DecryptFieldsStep(aes, x, fields, key, g, x);
    assert Flatten(body, fields[1..]) == Flatten(body, fields);
  }

  /** So the loops do not restore arrays: an array field comes back as a different value. */
  lemma ArrayNotRestored(aes: Aes, body: Body, fields: seq<string>, key: string, ivs: IvStream, n: nat, g: Guard, f: string)
    requires Sound(aes) && KeyOk(key) && NoDuplicates(fields)
    requires forall i | 0 <= i < |fields| && fields[i] in body :: Encryptable(body[fields[i]])
    requires f in fields && f in body && body[f].StrArray?
    ensures EncryptFields(aes, body, fields, key, ivs, n).Success?
    ensures var r := DecryptFields(aes, EncryptFields(aes, body, fields, key, ivs, n).value, fields, key, g);
            r.Success? && r.value[f] == Str(Json.Stringify(body[f].items)) && r.value[f] != body[f]
  {
    DecryptEncryptFields(aes, body, fields, key, ivs, n, g);
  }

  /** The intended restore: after decryption, the fields the schema declares as arrays are
      `JSON.parse`d back; a field whose text is not an array of strings is an error. */
  function RestoreArrays(body: Body, arrayFields: seq<string>): (r: Result<Body, string>)
    ensures r.Success? ==> r.value.Keys == body.Keys
    ensures r.Success? ==> forall k | k in body && k !in arrayFields :: r.value[k] == body[k]
    ensures r.Success? <==> forall k | k in body && k in arrayFields && body[k].Str? :: Json.Parse(body[k].s).Some?
    ensures r.Success? ==> forall k | k in body && k in arrayFields && body[k].Str? :: r.value[k] == StrArray(Json.Parse(body[k].s).value)
    ensures r.Success? ==> forall k | k in body && k in arrayFields && !body[k].Str? :: r.value[k] == body[k]
    decreases |arrayFields|
  {
    if arrayFields == [] then Success(body)
    else
      var f, rest := arrayFields[0], arrayFields[1..];
      assert forall k :: k in arrayFields <==> k == f || k in rest by {
        assert arrayFields == [f] + rest;
      }
      if f !in body || !body[f].Str? then RestoreArrays(body, rest)
      else
        match Json.Parse(body[f].s)
        case None => Failure("Unexpected token in JSON")
        case Some(xs) =>
          var next := body[f := StrArray(xs)];
          assert forall k | k in next && k != f :: next[k] == body[k];
          RestoreArrays(next, rest)
  }

  /** Decryption followed by the restore of the declared array fields. */
  function DecryptFieldsTyped(aes: Aes, body: Body, fields: seq<string>, arrayFields: seq<string>, key: string, g: Guard): (r: Result<Body, string>)
    ensures r.Success? ==> r.value.Keys == body.Keys
    ensures r.Success? ==> forall k | k in body && k !in fields && k !in arrayFields :: r.value[k] == body[k]
    ensures NoDuplicates(fields) && !AllDecrypt(aes, body, fields, key, g) ==> r == Failure("Failed to decrypt")
    ensures NoDuplicates(fields) && r.Success? ==>
              forall k | k in body && k in fields && k !in arrayFields && Selected(g, body[k]) ::
                && body[k].Str? && r.value[k].Str? && DecryptAES(aes, body[k].s, key) == Success(r.value[k].s)
    ensures NoDuplicates(fields) && r.Success? ==>
              forall k | k in body && k in fields && k in arrayFields && Selected(g, body[k]) ::
                && body[k].Str? && DecryptAES(aes, body[k].s, key).Success?
                && Json.Parse(DecryptAES(aes, body[k].s, key).value).Some?
                && r.value[k] == StrArray(Json.Parse(DecryptAES(aes, body[k].s, key).value).value)
  {
    DecryptFieldsValuesWhenDistinct(aes, body, fields, key, g);
    match DecryptFields(aes, body, fields, key, g)
    case Failure(_) => Failure("Failed to decrypt")
    case Success(b) => RestoreArrays(b, arrayFields)
  }

  lemma {:induction false} RestoreFlattened(body: Body, fields: seq<string>, arrayFields: seq<string>, done: seq<string>)
    requires forall k | k in body && k in fields :: Encryptable(body[k])
    requires forall k | k in body && k in fields :: (k in arrayFields || k in done) <==> body[k].StrArray?
    requires forall k | k in arrayFields :: k in fields
    requires forall k | k in done :: k !in arrayFields
    requires NoDuplicates(arrayFields)
    ensures RestoreArrays(map k | k in body :: if k in fields && k !in done then AsText(body[k]) else body[k], arrayFields) == Success(body)
    decreases |arrayFields|
  {
    var cur := map k | k in body :: if k in fields && k !in done then AsText(body[k]) else body[k];
    if arrayFields == [] {
      assert cur == body;
    } else {
      var f := arrayFields[0];
      var done' := done + [f];
      var next := map k | k in body :: if k in fields && k !in done' then AsText(body[k]) else body[k];
      if f in body {
        Json.ParseStringify(body[f].items);
        assert cur[f] == Str(Json.Stringify(body[f].items));
        assert cur[f := body[f]] == next;
      } else {
        assert cur == next;
      }
      assert forall k | k in arrayFields[1..] :: k in arrayFields;
      assert forall k | k in done' :: k !in arrayFields[1..] by {
        forall i | 0 <= i < |arrayFields[1..]| ensures arrayFields[1..][i] != f {
          assert arrayFields[1..][i] == arrayFields[i + 1];
        }
      }
      RestoreFlattened(body, fields, arrayFields[1..], done');
    }
  }

  /** With the restore, the round trip is exact: every listed field, array or string, comes
      back as it was sent. */
  lemma DecryptTypedEncryptFields(aes: Aes, body: Body, fields: seq<string>, arrayFields: seq<string>, key: string, ivs: IvStream, n: nat, g: Guard)
    requires Sound(aes) && KeyOk(key) && NoDuplicates(fields) && NoDuplicates(arrayFields)
    requires forall i | 0 <= i < |fields| && fields[i] in body :: Encryptable(body[fields[i]])
    requires forall k | k in arrayFields :: k in fields
    requires forall k | k in body && k in fields :: k in arrayFields <==> body[k].StrArray?
    ensures EncryptFields(aes, body, fields, key, ivs, n).Success?
    ensures DecryptFieldsTyped(aes, EncryptFields(aes, body, fields, key, ivs, n).value, fields, arrayFields, key, g) == Success(body)
  {
    DecryptEncryptFields(aes, body, fields, key, ivs, n, g);
    EncryptableByKey(body, fields);
    RestoreFlattened(body, fields, arrayFields, []);
    NothingDoneIsFlatten(body, fields);
  }

  lemma EncryptableByKey(body: Body, fields: seq<string>)
    requires forall i | 0 <= i < |fields| && fields[i] in body :: Encryptable(body[fields[i]])
    ensures forall k | k in body && k in fields :: Encryptable(body[k])
  {
    forall k | k in body && k in fields ensures Encryptable(body[k]) {
      var i :| 0 <= i < |fields| && fields[i] == k;
    }
  }

  lemma NothingDoneIsFlatten(body: Body, fields: seq<string>)
    ensures (map k | k in body :: if k in fields && k !in [] then AsText(body[k]) else body[k]) == Flatten(body, fields)
  {
  }
}

# EHR backend: field envelope encryption and access control, in Dafny

This project models the security core of an electronic-health-record backend written for
Node.js/Express. The core has four parts:

- **Field envelopes.** Record fields are encrypted with AES-256-CBC under a per-record key. Each
  is serialised as `hex(iv) ":" hex(ciphertext)`. Four middlewares apply this to a chosen list of
  request-body fields. The client scripts do the same for each record.
- **Key wrapping and loading.** The AES key is wrapped with RSA-OAEP. The backend unwraps with
  the library defaults and base64/UTF-8 encodings. The client scripts wrap and unwrap with
  OAEP/SHA-256 over the raw key bytes. `loadAESKey` validates the wrapped key and prefixes its
  errors.
- **Access control.** This covers:
  - the capability table;
  - the record-access helpers;
  - the bearer-token and cookie guards with their role guards;
  - the access decision and field handling of the patient-record controller.
- **Key state.** The key-exchange endpoints store the frontend public key and hand out the
  backend one. Key rotation writes a new backend key pair into the key directory.

AES and RSA are uninterpreted. They are datatypes of functions (`AesUtils.Aes`, `RsaUtils.Rsa`)
passed as parameters. The assumptions about them are the ghost predicates `AesUtils.Sound` and
`RsaUtils.Sound`, and a concrete instance shows each is satisfiable. Everything around the
ciphers is modelled for real:

- hex;
- base64;
- UTF-8;
- JavaScript `split`/`includes`/`startsWith`;
- `JSON.stringify`/`JSON.parse` of string arrays;
- header and claim lookup;
- truthiness;
- the error messages and status codes.

Randomness is passed in as parameters: IVs (an `IvStream`), the 32 random key bytes and key
generation seeds. So are JWT verification (a `Verifier`) and file-system and database failures
(flags or `Fault` values).

Modules, in dependency order:

- `Wrappers`: `Option` and `Result`.
- `Hex`, `Base64`, `Utf8`, `Text`, `Json`: the encodings.
- `Values`: bodies, truthiness, `Response`, `Reply` and `Step`.
- `AesUtils`, `RsaUtils`, `CryptoHelper`.
- `FieldCrypto`: the field loops.
- `FieldsMiddleware`, `TokenMiddleware`, `Tokens`, `LoadAesKey`.
- `ClientPayload`, `ClientCreation`, `ClientRetrieval`, `ClientDecrypt`.
- `Roles`, `RecordAccess`, `AuthGuards`, `CookieAuth`, `RecordController`.
- `KeyExchange`, `RotateKeys`.

Notes on what the code does:

- `canViewAllRecord` lets Provider through as well as Manager.
- `canViewRecordById` allows every Provider on every record; there is no assigned-provider check.
- `getRecordById` lets Admin read clinical records.
- No code path unwraps a stored key and re-wraps a fresh key for the requester.
- The backend does not store `encryptedAesKey` with a record, though the decrypt script expects
  one.

## Model

| member | source | states |
|---|---|---|
| AesUtils.Serialize | utils/aesUtils.js:10 | the output is an envelope (32 hex IV digits, one colon, an even number of hex ciphertext digits), has exactly one colon and splits into the hex of the IV and of the ciphertext |
| AesUtils.EncryptAES | utils/aesUtils.js:5-11 | encryption succeeds exactly when the key hex-decodes to 32 bytes; the result is an envelope with one colon whose 32-character prefix decodes to the IV |
| AesUtils.DecryptAES | utils/aesUtils.js:13-20 | input without a colon fails (no ciphertext piece); success implies a 32-byte key |
| AesUtils.DecryptEncrypt | utils/aesUtils.js:5-20 | under the cipher assumption, decrypting the encryption with the same key gives the data back |
| AesUtils.ExtraPiecesIgnored | utils/aesUtils.js:14 | pieces after the second colon do not change the result |
| AesUtils.DistinctIvsDistinctOutputs | utils/aesUtils.js:6-10 | different IVs give different envelopes, whatever the data |
| AesUtils.HexKeyLength | utils/aesUtils.js:7 | a 64-digit lower-case hex key decodes to the 32 bytes AES-256 needs |
| CryptoHelper.GenerateAESKey | helpers/cryptoHelper.js:4-6 | the key is 64 lower-case hex characters that decode to the 32 random bytes |
| CryptoHelper.GeneratedKeyReencodes | helpers/cryptoHelper.js:5 | hex-decoding then hex-encoding the key is the identity |
| CryptoHelper.EveryHexKeyIsGenerated | helpers/cryptoHelper.js:5 | every 64-digit lower-case hex string is the key generated from its own decoding |
| FieldCrypto.Plaintext | middlewares/encryptFieldsAESMiddleware.js:7 | strings and (JSON-stringified) arrays can be encrypted; any other value makes the cipher throw |
| FieldCrypto.EncryptField | middlewares/encryptFieldsAESMiddleware.js:5-9 | an undefined field is skipped; a defined field succeeds iff the key is valid and the value encryptable, becoming an envelope; no other key changes |
| FieldCrypto.EncryptFields | middlewares/encryptFieldsAESMiddleware.js:3-11 | succeeds iff every defined listed field is encryptable under a valid key; same key set; unlisted fields unchanged; listed defined fields become envelopes |
| FieldCrypto.DecryptField | middlewares/decryptFieldsAESMiddleware.js:5-8 | a selected non-string fails; a selected string is replaced by its decryption; an unselected value and every other key stay |
| FieldCrypto.DecryptFields | middlewares/decryptFieldsAESMiddleware.js:3-10 | same key set; unlisted and unselected fields unchanged; success implies every selected listed field was a string |
| FieldCrypto.DecryptFieldsValues | middlewares/decryptFieldsAESMiddleware.js:3-10 | over distinct fields the loop succeeds iff every selected listed field is a string that decrypts under the key, and then each such field holds exactly its decryption |
| FieldCrypto.DecryptEncryptFields | middlewares/decryptFieldsAESMiddleware.js:3-10 | decrypting what was encrypted with the same key and distinct fields gives the body back with arrays replaced by their JSON text |
| FieldCrypto.ArrayNotRestored | middleware/decryptAES.js:20-24 | an array field comes back as the string of its JSON, which differs from the original array |
| FieldCrypto.DecryptFieldsTyped | middleware/decryptAES.js:20-24 | same key set; fields in neither list unchanged; over distinct fields it fails with "Failed to decrypt" when a selected listed field does not decrypt, and on success each selected listed field holds its decryption, an array field the parsed JSON array of it |
| FieldCrypto.DecryptTypedEncryptFields | middleware/decryptAES.js:20-24 | with the array fields parsed back, decrypting the encryption gives exactly the original body |
| FieldsMiddleware.EncryptFieldsAESMiddleware | middlewares/encryptFieldsAESMiddleware.js:13-27 | a missing or empty key gives 400 and nothing else does; it proceeds iff every defined listed field encrypts, otherwise 500; on success only listed fields change, each to an envelope |
| FieldsMiddleware.DecryptFieldsAESMiddleware | middlewares/decryptFieldsAESMiddleware.js:12-26 | a missing key gives 400; other failures 500; over distinct fields it proceeds iff the key is present and every defined listed field is a string that decrypts, each then holding its decryption; unlisted fields are unchanged |
| FieldsMiddleware.DecryptAfterEncrypt | middlewares/decryptFieldsAESMiddleware.js:3-10 | the two middlewares in sequence give the body back with arrays as JSON text |
| TokenMiddleware.EncryptionKey | middleware/encryptAES.js:13 | a truthy `aesKey` claim wins; otherwise the `x-plaintext-key` header is used |
| TokenMiddleware.Token | middleware/encryptAES.js:7 | a token exists iff the `Authorization` header contains a space; it holds no space; for `Bearer <t>` it is `<t>` |
| TokenMiddleware.EncryptAESMiddleware | middleware/encryptAES.js:4-31 | 401 iff there is no token; a failed verification gives 400; 403 iff neither key source is truthy; every stop is one of these three; it proceeds iff the token verifies, a key source is truthy and every defined listed field encrypts under that key; on success only listed fields change, each to an envelope |
| TokenMiddleware.DecryptAESMiddleware | middleware/decryptAES.js:5-30 | 401 iff no token; a failed verification gives 400; 403 iff the claims lack a truthy `aesKey`; every stop is one of these three; over distinct fields it proceeds iff the token verifies with a truthy `aesKey` and every truthy listed field is a string that decrypts under it, each then holding its decryption; unlisted and falsy fields are unchanged |
| TokenMiddleware.HeaderKeyFallback | middleware/encryptAES.js:13-25 | without the claim the header key is the one fields are encrypted with |
| TokenMiddleware.NoHeaderFallback | middleware/decryptAES.js:14 | the decrypting side gives the same outcome whatever the header key |
| TokenMiddleware.MintedTokenHasNoKey | middleware/decryptAES.js:13-18 | a token that decodes to what `generateJWT` signs (`id`, `role`, `email`, `iat`, `exp`) always ends in 403 |
| TokenMiddleware.EmptyFieldSkipped | middleware/decryptAES.js:21 | an empty-string field is left as it is |
| TokenMiddleware.DecryptAfterEncrypt | middleware/decryptAES.js:20-24 | encrypting then decrypting with the token's key gives the body with arrays as JSON text |
| Tokens.SecondPiece | middleware/encryptAES.js:7 | a piece exists iff the header contains a space, and it contains no space |
| Tokens.SecondPieceIgnoresScheme | middleware/encryptAES.js:7 | whatever word precedes the space, the token after it is taken |
| Tokens.MintedClaims | utils/jwtUtils.js:4-8 | the payload literal has exactly `id`, `role` and `email`: no `aesKey`, no `_id` |
| Tokens.Sign | utils/jwtUtils.js:12 | signing adds `iat` and `exp` and keeps every other payload claim |
| Tokens.SignedIsMintedBy | utils/jwtUtils.js:3-12 | a signed `generateJWT` payload decodes to exactly `id`, `role`, `email`, `iat` and `exp`, carrying the user's three values and no `aesKey` or `_id` |
| Tokens.MintedByLacksKeyAndUnderscoreId | helpers/jwt.js:4-5 | decoded claims of that shape have neither `aesKey` nor `_id` |
| RsaUtils.GenerateRSAKeyPair | utils/rsaUtils.js:4-16 | the public key is an SPKI PEM and the private key a PKCS#8 PEM; the public key wraps every message within the OAEP bound of a 2048-bit modulus, and the private key unwraps whatever the public key wrapped |
| RsaUtils.EncryptWithPublicKey | utils/rsaUtils.js:19-22 | succeeds iff OAEP/SHA-1 over the UTF-8 bytes of the key succeeds; the base64 result decodes to that ciphertext |
| RsaUtils.DecryptWithPrivateKey | utils/rsaUtils.js:25-28 | succeeds iff OAEP/SHA-1 unwrapping of the base64-decoded blob succeeds |
| RsaUtils.DecryptEncrypt | utils/rsaUtils.js:19-28 | a string within the OAEP bound, wrapped for a generated public key, unwraps to itself with the matching private key |
| RsaUtils.PaddingMismatchFails | utils/rsaUtils.js:25-28 | a blob wrapped with OAEP/SHA-256 never unwraps here, whatever the key pair |
| RsaUtils.OtherKeyPairFails | utils/rsaUtils.js:25-28 | a blob wrapped for one key pair fails with the private key of another |
| RsaUtils.ExportsOnlyDefined | utils/rsaUtils.js:30 | the module exports its three functions, `decryptWithPrivateKey` among them, and no `decryptWithBackendPrvKey` |
| LoadAesKey.LoadAESKey | middlewares/loadAESKey.js:3-18 | an absent or empty argument fails with the bare message; an unbound import fails with the prefixed "is not a function" message, a throwing unwrap with the prefixed error of the throw, an empty unwrap with the prefixed "Decryption returned no key"; success returns the unwrapped key unchanged and non-empty, and a non-empty unwrap succeeds |
| LoadAesKey.Import | middlewares/loadAESKey.js:1 | a destructured import is bound iff the module exports the name |
| LoadAesKey.LoadAESKeyAsWritten | middlewares/loadAESKey.js:1-18 | with the unexported name imported, an absent or empty argument gets the bare message and any other fails with the prefixed "decryptWithBackendPrvKey is not a function" |
| LoadAesKey.AsWrittenAlwaysFails | middlewares/loadAESKey.js:1-17 | every call fails; a non-empty one fails with the prefixed "is not a function" error |
| LoadAesKey.LoadAESKeyFixed | middlewares/loadAESKey.js:3-18 | with `decryptWithPrivateKey` bound: succeeds iff the argument is present and the unwrap gives a non-empty key, returning that key; an unwrap failure gives its prefixed error, an empty unwrap the prefixed "Decryption returned no key" |
| LoadAesKey.FixedLoadsWrappedKey | middlewares/loadAESKey.js:3-18 | a key wrapped for the backend public key loads back unchanged |
| ClientPayload.EncryptWithAES | test/testScripts/recordCreation/recordCreationScript.js:32-40 | a falsy text or key throws the missing-input message; otherwise the result is the backend's envelope |
| ClientPayload.WrapKey | test/testScripts/recordCreation/recordCreationScript.js:43-52 | OAEP/SHA-256 over the hex-decoded raw key bytes; the base64 result decodes to that ciphertext |
| ClientPayload.WrapGeneratedKey | test/testScripts/recordCreation/recordCreationScript.js:43-52 | a generated AES key always wraps under a generated 2048-bit public key |
| ClientPayload.VisitDate | test/testScripts/recordCreation/recordCreationScript.js:69 | the date contains no `T` and is a prefix of the timestamp |
| ClientPayload.VisitDateOfTimestamp | test/testScripts/recordCreation/recordCreationScript.js:69 | for `date + "T" + time` the visit date is `date` |
| ClientPayload.Payload | test/testScripts/recordCreation/recordCreationScript.js:64-70 | with non-empty texts and key, the payload is built iff the key is valid; it has the keys of the plain record |
| ClientPayload.PayloadIsEncryptFields | test/testScripts/recordCreation/recordCreationScript.js:64-70 | the payload is what the backend's field loop gives for diagnosis, notes and medications of the plain record |
| ClientPayload.BackendDecryptsPayload | test/testScripts/recordCreation/recordCreationScript.js:64-70 | the backend's decryption gives back diagnosis and notes, and medications as JSON text that parses to the list |
| ClientCreation.Run | test/testScripts/recordCreation/recordCreationScript.js:54-84 | succeeds iff the key wraps; the key is 64 hex characters of the random bytes; the payload is the field loop's output; the wrapped key decodes to the ciphertext |
| ClientCreation.BackendCannotUnwrap | test/testScripts/recordCreation/recordCreationScript.js:43-52 | the key this script wraps never unwraps with the backend's default padding, for any key pair |
| ClientRetrieval.EncryptWithAES | test/testScripts/recordRetrieval/recordCreationScript.js:43-49 | no input validation: succeeds iff the key decodes to 32 bytes, giving an envelope with the IV as prefix |
| ClientRetrieval.AgreesWithValidated | test/testScripts/recordRetrieval/recordCreationScript.js:43-49 | agrees with the validating version on non-empty inputs |
| ClientRetrieval.EncryptsEmptyText | test/testScripts/recordRetrieval/recordCreationScript.js:43-49 | an empty text is encrypted where the other script would throw |
| ClientRetrieval.RequestHeaders | test/testScripts/recordRetrieval/recordCreationScript.js:110-114 | exactly three headers; the wrapped key verbatim; the public key as base64 of its UTF-8 PEM; the bearer token extracts back to the token |
| ClientRetrieval.Run | test/testScripts/recordRetrieval/recordCreationScript.js:63-133 | as for the creation script, plus the headers carry the wrapped key, the base64 PEM and the token |
| ClientDecrypt.DecryptAESKey | test/testScripts/recordRetrieval/decryptRetrievedRecordScript.js:13-22 | succeeds iff OAEP/SHA-256 unwrapping succeeds; the result is lower-case hex of the unwrapped bytes |
| ClientDecrypt.DecryptAESKeyInvertsWrap | test/testScripts/recordRetrieval/decryptRetrievedRecordScript.js:13-22 | it inverts the client wrap for a matching key pair |
| ClientDecrypt.OtherPairKeyFails | test/testScripts/recordRetrieval/decryptRetrievedRecordScript.js:13-22 | a key wrapped for another pair fails |
| ClientDecrypt.DecryptWithAES | test/testScripts/recordRetrieval/decryptRetrievedRecordScript.js:25-35 | non-strings and strings without a colon fail with the format error; otherwise it is the backend's decryption |
| ClientDecrypt.DecryptItems | test/testScripts/recordRetrieval/decryptRetrievedRecordScript.js:43-45 | an array is decrypted element by element, failing if any element fails |
| ClientDecrypt.DecryptField | test/testScripts/recordRetrieval/decryptRetrievedRecordScript.js:42-50 | arrays element-wise, strings directly, any other type fails as unsupported |
| ClientDecrypt.ParseMedications | test/testScripts/recordRetrieval/decryptRetrievedRecordScript.js:57 | succeeds iff the decrypted text (an array joined with commas) parses as JSON, escaped surrogate pairs included |
| ClientDecrypt.ParseMedicationsStringify | test/testScripts/recordRetrieval/decryptRetrievedRecordScript.js:57 | the JSON text of a list parses back to it |
| Json.ParseSurrogatePair | test/testScripts/recordRetrieval/decryptRetrievedRecordScript.js:57 | a supplementary character written as its two escaped UTF-16 code units parses back to that one character |
| Json.ParseEscapedEmoji | test/testScripts/recordRetrieval/decryptRetrievedRecordScript.js:57 | `["\ud83d\ude00"]` parses to the one-element array holding U+1F600 |
| ClientDecrypt.DecryptRecord | test/testScripts/recordRetrieval/decryptRetrievedRecordScript.js:38-64 | a non-string wrapped key fails; `_id`, patient and visit date are copied; diagnosis and notes are their field decryptions; medications are the JSON parse of the decrypted medications field |
| ClientDecrypt.SelectRecord | test/testScripts/recordRetrieval/decryptRetrievedRecordScript.js:70 | the `record` member when it is neither null nor undefined, else the whole document; null throws |
| ClientDecrypt.DecryptsPayload | test/testScripts/recordRetrieval/decryptRetrievedRecordScript.js:38-59 | a payload built under a key, with that key wrapped for this pair, decrypts to the original diagnosis, notes and medications |
| ClientDecrypt.RetrievalEndToEnd | test/testScripts/recordRetrieval/decryptRetrievedRecordScript.js:38-59 | the retrieval script's record, with the key wrapped for this pair, decrypts to its plain fields |
| ClientDecrypt.HeaderKeyFails | test/testScripts/recordRetrieval/decryptRetrievedRecordScript.js:39 | the key the retrieval script sends wrapped for the backend pair does not unwrap with the frontend key |
| Roles.ParseRole | models/User.js:8 | parsing a role name gives the role of that name, and fails only for a string that names no role |
| Roles.TableCoversRoles | config/roles.js:1-7 | the table has an entry for exactly the five roles |
| Roles.PatientOnlyReadsOwnProfile | config/roles.js:2 | a patient's only capability is reading their own profile |
| Roles.UpdateNotesOnlyProvider | config/roles.js:3 | only providers update patient notes |
| Roles.ManageEmployeesOnlyManager | config/roles.js:5-6 | only managers manage employees; the administrator does not inherit it |
| Roles.ManageUsersAndSystemOnlyAdmin | config/roles.js:6 | only the administrator manages users and the system |
| Roles.ReadAnyImpliesUpdateAny | config/roles.js:4-6 | reading any profile comes with updating any profile, for Employee, Manager and Admin |
| RecordAccess.CanCreateRecord | utils/recordAccessRoles.js:2 | true iff the role is Provider or Manager |
| RecordAccess.CanViewAllRecord | utils/recordAccessRoles.js:4 | true iff the role is Provider or Manager |
| RecordAccess.CallFixed | utils/recordAccessRoles.js:1-18 | the corrected module answers exactly for its four exports, and true iff a provider or manager calls one of the three staff predicates or an owning patient calls one of the two own-record predicates |
| RecordAccess.AsWrittenNothingCallable | utils/recordAccessRoles.js:7 | for every exported name and every argument, the corrected module answers and the module as written fails, so the two never agree |
| RecordAccess.CanViewOwnRecord | utils/recordAccessRoles.js:6-8 | true iff the role is Patient and the requester is the record's patient |
| RecordAccess.CanViewRecordById | utils/recordAccessRoles.js:10-17 | never false; true iff an owning patient, or a provider or manager on any record |
| RecordAccess.ViewOwnImpliesViewById | utils/recordAccessRoles.js:6-13 | viewing one's own record implies viewing it by id |
| RecordAccess.StaffViewEveryRecord | utils/recordAccessRoles.js:14-16 | providers and managers view, create and list every record |
| RecordAccess.OthersDenied | utils/recordAccessRoles.js:10-17 | employees, administrators and unknown roles are denied everywhere |
| RecordAccess.PatientOnlyOwn | utils/recordAccessRoles.js:11-13 | a patient is allowed exactly on their own record |
| AuthGuards.VerifyToken | middleware/authMiddleware.js:5-18 | 401 iff the header is missing, empty or not `Bearer `-prefixed; passes iff it is and the second piece verifies, with the decoded claims; otherwise 403 |
| AuthGuards.RoleOf | middleware/authMiddleware.js:22 | `req.user?.role` is defined iff there is a user with a `role` claim, and then it is that claim |
| AuthGuards.BearerTokenVerified | middleware/authMiddleware.js:10-14 | for `Bearer <token>` the outcome is verification of exactly `<token>` |
| AuthGuards.EmptyBearerRefused | middleware/authMiddleware.js:7-17 | a bare `Bearer ` header passes the scheme test and, since verification refuses the empty token, gets 403 |
| AuthGuards.OtherSchemeRefused | middleware/authMiddleware.js:7-8 | a `Basic` header, which the field middlewares would accept, is refused with 401 |
| AuthGuards.Permit | middleware/authMiddleware.js:20-27 | allows iff the role claim is non-empty and listed; otherwise 403 |
| AuthGuards.EmptyPermitDeniesAll | middleware/authMiddleware.js:22 | an empty role list denies everyone |
| AuthGuards.PermitWithoutUserDenies | middleware/authMiddleware.js:22 | with no authenticated user the guard denies |
| AuthGuards.Guarded | middleware/authMiddleware.js:5-27 | the chained guards pass only what both pass; a token refusal comes first, and a verified token whose role `permit` refuses gets 403 "Access denied" |
| AuthGuards.MintedTokenGuarded | middleware/authMiddleware.js:5-27 | a bearer token that decodes to minted claims passes the chain iff the user's role is listed |
| AuthGuards.CheckPermission | middleware/authMiddleware.js:29-37 | allows iff the role is one of the five and its capability list holds the permission; otherwise 403 |
| AuthGuards.AdminCannotManageEmployees | middleware/authMiddleware.js:32 | the administrator is refused `manage_employees` |
| AuthGuards.UnknownRoleHasNoPermission | middleware/authMiddleware.js:31-33 | no role, or one the table does not know, is refused every permission |
| CookieAuth.AuthMiddleware | middlewares/authMiddleware.js:4-19 | 401 iff the token cookie is missing or empty; passes with the decoded claims iff it verifies; otherwise 403 |
| CookieAuth.HeadersIgnored | middlewares/authMiddleware.js:5 | without the cookie the request is refused whatever its headers |
| CookieAuth.RequiredRole | middlewares/authMiddleware.js:21-29 | allows iff the role claim is one of the listed roles; otherwise 403 |
| CookieAuth.RequiredRoleAgainstPermit | middlewares/authMiddleware.js:24 | it agrees with `permit` except that an empty role claim passes when `""` is listed |
| CookieAuth.LowerCaseRoleRefusesAll | routes/adminRoutes.js:11-13 | a guard for `admin` refuses every user of every role |
| CookieAuth.Export | middlewares/authMiddleware.js:31-34 | a name is defined iff it is exported |
| CookieAuth.ImportedNamesUndefined | middlewares/authMiddleware.js:31-34 | `verifyToken`, `permit` and `requireRole` are undefined; the two real exports are defined |
| RecordController.PatientId | controllers/patientRecordController.js:33 | the record's patient id exists iff the patient is a string id |
| RecordController.GetRecordByIdWith | controllers/patientRecordController.js:26-41 | for whichever claim names the requester: a lookup that throws (an uncastable id, a database error) gives 500; otherwise 404 iff missing; 200 with the record iff staff or the claim equals the patient id; 403 iff a non-staff claim differs; any other outcome is 500 |
| RecordController.GetRecordById | controllers/patientRecordController.js:26-41 | a lookup that throws gives 500; otherwise 404 iff the record is missing; 200 with the record iff a staff role or the requester's `_id` equals the patient id; 403 iff a non-staff requester has an `_id` claim that differs from the string patient id; every other outcome is 500 |
| RecordController.GetRecordByIdFixed | controllers/patientRecordController.js:33 | the same decision, reading the `id` claim: 500 when the lookup throws, 404 iff missing, 200 iff staff or the owner |
| RecordController.GetRecordByIdAgainstRecordAccess | controllers/patientRecordController.js:33-35 | the handler allows iff `canViewRecordById` does, or the requester is the administrator, or a role other than Patient owns the record |
| RecordController.NotFoundBeforeAccessCheck | controllers/patientRecordController.js:27-39 | a missing record gives 404 and a lookup that throws gives 500, whoever asks |
| RecordController.MintedOwnerFailsAsWritten | controllers/patientRecordController.js:33 | a patient whose token decodes to minted claims gets 500 on their own record |
| RecordController.MintedOwnerServedFixed | controllers/patientRecordController.js:33 | reading the `id` claim of minted claims, the patient gets a record iff it is theirs |
| RecordController.Stamp | controllers/patientRecordController.js:5-8 | only the schema's fields of the body are kept, and `createdBy` is always the requester's id |
| RecordController.CreateRecordWith | controllers/patientRecordController.js:3-14 | for whichever claim names the requester: 201 iff it is present, the save succeeds and the id is new, storing the body stamped with it; otherwise 400 with the collection unchanged |
| RecordController.CreateRecord | controllers/patientRecordController.js:3-14 | 201 iff there is a requester `_id`, the save succeeds and the id is new, storing the stamped body; otherwise 400 with the collection unchanged |
| RecordController.CreateRecordFixed | controllers/patientRecordController.js:7 | the same, stamping the `id` claim |
| RecordController.MintedCreator | controllers/patientRecordController.js:7 | with minted claims nothing is created as written; fixed, the record carries the creator's id |
| RecordController.CreateThenGet | controllers/patientRecordController.js:5-10 | a created record is readable by staff with its creator |
| RecordController.Merge | controllers/patientRecordController.js:45 | the update's fields replace the stored ones and the others stay |
| RecordController.UpdateRecord | controllers/patientRecordController.js:43-54 | 404 iff the record is missing; 200 iff it exists, storing the merge of the update's schema fields and returning the new record; otherwise the collection is unchanged |
| RecordController.DeleteRecord | controllers/patientRecordController.js:56-67 | 404 iff the record is missing; 200 iff it exists, removing it; otherwise the collection is unchanged |
| RecordController.ClientKeysNotStored | controllers/patientRecordController.js:5-8 | the clients' `medications` and `encryptedAesKey`, outside the strict schema, are never stored by a create or an update |
| RecordController.DeleteThenGet | controllers/patientRecordController.js:56-61 | after a delete the record is not found, by reading or by deleting again |
| RecordController.OthersUntouched | controllers/patientRecordController.js:43-67 | an update or delete leaves every other record as it was |
| RecordController.UpdateIdempotent | controllers/patientRecordController.js:45 | the same update twice equals once |
| KeyExchange.SaveFrontendPublicKey | controllers/keyExchangeController.js:7-22 | 400 iff the key is falsy or lacks the marker; 200 iff a marked string is written, storing it verbatim; a write cut after the truncating open leaves a prefix of the key; any other outcome leaves the directory unchanged, and only the frontend key ever changes |
| KeyExchange.CutSaveLosesOldFrontendKey | controllers/keyExchangeController.js:14-20 | a write that fails right after the open answers 500 and leaves an empty file in place of the old frontend key |
| KeyExchange.Rejected | controllers/keyExchangeController.js:10 | the key passes the test iff it is a string containing the marker or an array with an element equal to it; a truthy value of any other type makes the test throw |
| KeyExchange.MarkerAnywhereAccepted | controllers/keyExchangeController.js:10 | any text with the marker anywhere in it is stored verbatim |
| KeyExchange.GeneratedKeyAccepted | controllers/keyExchangeController.js:10 | a generated public key is accepted |
| KeyExchange.LastSaveWins | controllers/keyExchangeController.js:15-17 | a second accepted key replaces the first |
| KeyExchange.GetBackendPublicKey | controllers/keyExchangeController.js:24-32 | 200 with the stored key verbatim iff it exists and the read succeeds; otherwise 500 |
| KeyExchange.SaveKeepsBackendKey | controllers/keyExchangeController.js:7-32 | saving the frontend key does not change what the backend key endpoint returns |
| RotateKeys.RotateKeys | scripts/rotateKeys.js:9-38 | exit 0 iff no step fails, storing the new pair; exit 1 otherwise; a write that fails before opening its file leaves that file as it was, one that fails after the open leaves a prefix of the new key; a failed public write leaves the new private key beside an old or cut public key |
| RotateKeys.RotatedPairMatches | scripts/rotateKeys.js:12-29 | after a full rotation a key wrapped for the stored public key unwraps with the stored private key |
| RotateKeys.OldWrapFailsAfterRotation | scripts/rotateKeys.js:28-29 | a key wrapped for the pre-rotation public key does not unwrap after rotation |
| RotateKeys.TornRotation | scripts/rotateKeys.js:28-29 | after a failure between the writes, what is wrapped for the stored public key no longer unwraps |
| RotateKeys.CutWriteLosesOldPrivateKey | scripts/rotateKeys.js:28 | a private-key write that fails after the open leaves an empty private key file, so the old pair is already broken |
| RotateKeys.RotateKeysAtomic | scripts/rotateKeys.js:28-29 | the corrected rotation commits both files or neither |
| RotateKeys.AtomicKeepsPairUsable | scripts/rotateKeys.js:28-29 | with the corrected rotation the stored pair unwraps its own wraps after any fault |
| RotateKeys.RotationThenGet | scripts/rotateKeys.js:29 | after a rotation the key endpoint hands out the new public key |

## Left out

- AES-256-CBC, RSA-OAEP and key generation are uninterpreted functions with assumed
  properties. There is no block-cipher or padding arithmetic and no proof of IV freshness.
- JWT verification is a parameter. Signing is modelled only as adding `iat` and `exp` to the
  payload. These two claims are numbers; they are carried as text here because no code under
  this model reads them. Expiry checking is part of the verifier parameter.
- Mongo persistence is not modelled:
  - the collection is a map;
  - the stored record is the body as sent, with `createdBy` stamped, cut down to the schema's
    paths: the strict schema drops every other key, such as the clients' `medications` and
    `encryptedAesKey`;
  - the generated `_id`, the `createdAt`/`updatedAt` timestamps and the schema defaults
    (`visitDate`, an empty `medicantions`) are not added to the stored record;
  - only validation and cast errors and the connection's failures are a failure flag;
  - the `populate` of `patient`/`createdBy` is ignored, and `patient` is a plain string id.
    In the code, `getRecordById` populates `patient`. So `record.patient.toString()` is the
    populated document's text, not its id. Reading the `id` claim alone would still refuse
    patients with 403; the fix also needs `record.patient._id`.
- A record whose `patient` is not a string is treated like a missing one, with 500.
- RotateKeys.RotateKeys: no longer promises that a failed run keeps the old public key. A public
  write that fails after opening the file (`PublicWriteCut`) leaves a prefix of the new key there.
- ClientDecrypt.DecryptRecord: an array-valued `encryptedAesKey` fails with `KeyNotAString`. The
  script instead builds a buffer from the array's elements, and the unwrap of that buffer is
  what fails. Both paths fail, with different errors.
- The `error` field of the 400/500 replies is not modelled; it holds the thrown message.
- The schema field is spelt `medicantions`, so it does not match the `medications` the clients
  send. The strict schema therefore drops the clients' list (`ClientKeysNotStored`). Whether
  the required `medicantions` then fails validation depends on Mongoose's empty-array default,
  which is left to the failure flag.
- `getAllRecords` is not modelled. It only returns every stored record after `populate`.
- The controller's other handlers are nested inside `createRecord`, so they are exported only
  once it has run. This wiring defect is not modelled.
- Routes are not modelled. `routes/patientRecordRoutes.js` puts `permit` before `verifyToken` and
  imports names the module does not export. Only `AuthGuards.PermitWithoutUserDenies` and
  `CookieAuth.ImportedNamesUndefined` speak to it.
- `checkPermission` is not modelled for a role such as `constructor` that names a property of
  `Object.prototype`. There `.can.includes` throws and Express answers 500.
- `req.cookies` is not modelled without the cookie parser installed (a `TypeError`).
- JSON values are modelled only as far as the records need: arrays of strings, integers, no
  floating point.
- `JSON.parse` is modelled for arrays of strings only.
- Strings are sequences of Unicode scalar values, not of UTF-16 code units. A string holding an
  unpaired surrogate cannot be represented. So `JSON.parse` of an unpaired `\uD800`-`\uDFFF`
  escape, which JavaScript accepts, is refused here. Node's UTF-8 encoding turns such a code unit
  into U+FFFD, so `AesUtils.DecryptEncrypt` and the other round trips hold for scalar strings only.
- `config/keyManager.js` reads keys once at start-up, so a rotation does not refresh them in a
  running server. This caching is not modelled.
- The key-exchange endpoint writes `config/keys/frontendPublicKey.pem`, while
  `config/keyManager.js` reads a different frontend key file. The two paths are not connected.
- Scheduling of the rotation (cron), console output and `process.exit` are not modelled. The
  exit code is returned instead. When rotation runs inside the server, the exit also ends the
  server.
- Client I/O is not modelled: HTTP requests, file reads and writes of the saved key and record,
  and login.
- Audit logging, export, login and seeding are outside this core.

## Findings

| source | as written | input that shows it | evidently intended | confidence | as-written member | corrected member |
|---|---|---|---|---|---|---|
| middlewares/loadAESKey.js:1 | imports `decryptWithBackendPrvKey`, which `utils/rsaUtils.js` does not export, so the binding is `undefined` | any non-empty `encryptedAesKey`: the call fails with "Failed to load AES key: decryptWithBackendPrvKey is not a function" | unwrap with the backend private key via `decryptWithPrivateKey` | not executed; high | LoadAesKey.AsWrittenAlwaysFails | LoadAesKey.FixedLoadsWrappedKey |
| scripts/rotateKeys.js:28-29 | writes the private key, then the public key, with no rollback; each write empties its file when it opens it | the second write fails: the directory holds the new private key and the old public key, and keys wrapped for the served public key no longer unwrap | both files replaced together or not at all | not executed; high | RotateKeys.TornRotation | RotateKeys.AtomicKeepsPairUsable |
| middleware/decryptAES.js:20-24 | decrypts fields that were JSON-stringified arrays but never parses them back | `medications: ["a","b"]` encrypted and decrypted comes back as the string `["a","b"]` | arrays restored by `JSON.parse` | not executed; medium | FieldCrypto.ArrayNotRestored | FieldCrypto.DecryptTypedEncryptFields |
| utils/recordAccessRoles.js:7 | the return expression ends in a dangling logical-or before the semicolon, a syntax error, so loading the module throws | any `require` of the module, e.g. to call `canCreateRecord('Provider')` | the left operand alone | not executed; high | RecordAccess.AsWrittenNothingCallable | RecordAccess.CallFixed |
| controllers/patientRecordController.js:26-41 | reads `req.user._id`, but tokens carry the user id in `id` | a patient with a minted token reading their own record gets 500; any minted token creating a record gets 400 | read the `id` claim, and compare it with `record.patient._id`, since the record's `patient` is populated | not executed; high | RecordController.MintedOwnerFailsAsWritten | RecordController.MintedOwnerServedFixed |

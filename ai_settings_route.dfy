/** GET and PUT /api/ai/settings: the admin-only endpoint that reports whether an OpenAI key
    is configured, showing it masked, and replaces it. The environment, the request's PIN
    header and body, and the outcome of decrypting and writing the key file are
    parameters; `decrypt` gives "" for data it cannot decrypt. */
module AiSettingsRoute {
  import opened Wrappers

  /** The PIN used when ADMIN_PIN is not set. */
  const DefaultPin := "1234"
  const Hidden := "****"
  const KeyPrefix := "sk-"

  predicate Truthy(o: Option<string>) {
    o.Some? && o.value != ""
  }

  /** `process.env.ADMIN_PIN || "1234"`. */
  function AdminPin(env: Option<string>): (pin: string)
    ensures pin != ""
  {
    if Truthy(env) then env.value else DefaultPin
  }

  /** checkAdmin: the `x-admin-pin` header, "" when missing, equals the admin PIN. */
  function CheckAdmin(header: Option<string>, pinEnv: Option<string>): (ok: bool)
    ensures ok <==> header.Some? && header.value == AdminPin(pinEnv)
  {
    (if Truthy(header) then header.value else "") == AdminPin(pinEnv)
  }

  /** A request without the header is never an admin's. */
  lemma MissingHeaderRejected(pinEnv: Option<string>)
    ensures !CheckAdmin(None, pinEnv) && !CheckAdmin(Some(""), pinEnv)
  {}

  /** Only the exact PIN passes. */
  lemma OnlyThePin(header: string, pinEnv: Option<string>)
    ensures CheckAdmin(Some(header), pinEnv) <==> header == AdminPin(pinEnv)
  {}

  /** maskKey: "****" for a key under 8 characters, else its first 5, "..." and its last 4,
      so at most 9 of its characters show. */
  function MaskKey(key: string): (masked: string)
    ensures |key| < 8 ==> masked == Hidden
    ensures |key| >= 8 ==> |masked| == 12 && masked[..5] == key[..5] && masked[5..8] == "..."
                           && masked[8..] == key[|key| - 4..]
  {
    if |key| < 8 then Hidden else key[..5] + "..." + key[|key| - 4..]
  }

  /** Keys that agree in their first five and last four characters look the same. */
  lemma MaskHidesMiddle(a: string, b: string)
    requires |a| >= 8 && |b| >= 8
    requires a[..5] == b[..5] && a[|a| - 4..] == b[|b| - 4..]
    ensures MaskKey(a) == MaskKey(b)
  {}

  /** Masking a masked key changes nothing. */
  lemma MaskIdempotent(key: string)
    ensures MaskKey(MaskKey(key)) == MaskKey(key)
  {
    if |key| >= 8 {
      var m := MaskKey(key);
      assert m[..5] == key[..5] && m[|m| - 4..] == key[|key| - 4..];
      assert m == m[..5] + "..." + m[|m| - 4..];
    }
  }

  datatype Source = Env | File

  datatype GetResponse =
    | GetUnauthorized
    | Status(configured: bool, source: Option<Source>, maskedKey: Option<string>)

  function GetStatusCode(r: GetResponse): int {
    if r.GetUnauthorized? then 401 else 200
  }

  /** GET: 401 without the PIN; otherwise the environment's key when set, without looking at
      the file; otherwise the file's key, decrypted, when the file holds one. */
  function Get(header: Option<string>, pinEnv: Option<string>, envKey: Option<string>,
               encryptedKey: Option<string>, decrypt: string -> string): (r: GetResponse)
    ensures r.GetUnauthorized? <==> !CheckAdmin(header, pinEnv)
    ensures CheckAdmin(header, pinEnv) && Truthy(envKey) ==>
              r == Status(true, Some(Env), Some(MaskKey(envKey.value)))
    ensures CheckAdmin(header, pinEnv) && !Truthy(envKey) && Truthy(encryptedKey) ==>
              var key := decrypt(encryptedKey.value);
              r == Status(key != "", Some(File), if key != "" then Some(MaskKey(key)) else None)
    ensures CheckAdmin(header, pinEnv) && !Truthy(envKey) && !Truthy(encryptedKey) ==>
              r == Status(false, None, None)
  {
    if !CheckAdmin(header, pinEnv) then GetUnauthorized
    else if Truthy(envKey) then Status(true, Some(Env), Some(MaskKey(envKey.value)))
    else if Truthy(encryptedKey) then
      var key := decrypt(encryptedKey.value);
      Status(key != "", Some(File), if key != "" then Some(MaskKey(key)) else None)
    else Status(false, None, None)
  }

  /** The PIN check comes first: an unauthorised request learns nothing about the key. */
  lemma GetUnauthorizedFirst(header: Option<string>, pinEnv: Option<string>,
                             env1: Option<string>, file1: Option<string>,
                             env2: Option<string>, file2: Option<string>, decrypt: string -> string)
    requires !CheckAdmin(header, pinEnv)
    ensures Get(header, pinEnv, env1, file1, decrypt) == Get(header, pinEnv, env2, file2, decrypt)
  {}

  /** A key in the environment hides whatever the file holds. */
  lemma EnvWins(header: Option<string>, pinEnv: Option<string>, envKey: string,
                file1: Option<string>, file2: Option<string>, decrypt: string -> string)
    requires envKey != ""
    ensures Get(header, pinEnv, Some(envKey), file1, decrypt) == Get(header, pinEnv, Some(envKey), file2, decrypt)
  {}

  /** The request body's `apiKey` field. */
  datatype KeyField = Missing | NotText | Text(value: string)

  datatype PutResponse = PutUnauthorized | InvalidFormat | SaveFailed | Saved(maskedKey: string)

  function PutStatusCode(r: PutResponse): int {
    match r
    case PutUnauthorized => 401
    case InvalidFormat => 400
    case SaveFailed => 500
    case Saved(_) => 200
  }

  /** The format PUT accepts: a string starting with "sk-". */
  predicate ValidKey(field: KeyField) {
    field.Text? && |field.value| >= 3 && field.value[..3] == KeyPrefix
  }

  /** PUT: 401 without the PIN; 500 when destructuring the body throws (`body` None: the
      body is not JSON, or it is the JSON `null`, the one body whose missing key gives 500
      rather than 400) or the file cannot be written; 400 for a key that is missing, not a string or not "sk-"-prefixed;
      otherwise the key is saved and the masked key returned. */
  function Put(header: Option<string>, pinEnv: Option<string>, body: Option<KeyField>, written: bool)
    : (r: PutResponse)
    ensures r == PutUnauthorized <==> !CheckAdmin(header, pinEnv)
    ensures CheckAdmin(header, pinEnv) && body.None? ==> r == SaveFailed
    ensures CheckAdmin(header, pinEnv) && body.Some? ==>
              (r == InvalidFormat <==> !ValidKey(body.value))
    ensures r.Saved? <==> CheckAdmin(header, pinEnv) && body.Some? && ValidKey(body.value) && written
    ensures r.Saved? ==> r.maskedKey == MaskKey(body.value.value)
  {
    if !CheckAdmin(header, pinEnv) then PutUnauthorized
    else match body
      case None => SaveFailed
      case Some(field) =>
        if field.Missing? || field.NotText? || field.value == "" || !(|field.value| >= 3 && field.value[..3] == KeyPrefix)
        then InvalidFormat
        else if !written then SaveFailed
        else Saved(MaskKey(field.value))
  }

  /** The environment key after PUT: set to the new key only when it was saved. */
  function EnvAfterPut(envKey: Option<string>, header: Option<string>, pinEnv: Option<string>,
                       body: Option<KeyField>, written: bool): (r: Option<string>)
    ensures Put(header, pinEnv, body, written).Saved? ==> r == Some(body.value.value)
    ensures !Put(header, pinEnv, body, written).Saved? ==> r == envKey
  {
    if Put(header, pinEnv, body, written).Saved? then Some(body.value.value) else envKey
  }

  /** After a successful PUT the next GET reports the new key, from the environment, with the
      same mask PUT returned. */
  lemma PutThenGet(header: Option<string>, pinEnv: Option<string>, envKey: Option<string>,
                   body: Option<KeyField>, written: bool, encryptedKey: Option<string>, decrypt: string -> string)
    requires Put(header, pinEnv, body, written).Saved?
    ensures Get(header, pinEnv, EnvAfterPut(envKey, header, pinEnv, body, written), encryptedKey, decrypt)
              == Status(true, Some(Env), Some(Put(header, pinEnv, body, written).maskedKey))
  {}
}

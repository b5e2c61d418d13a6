/** Commands on the wire: src/control/Command.h, Command.cpp and CommandValidator.cpp, and the
    signer of streamer/src/control/CommandSigner.cpp. Signatures are abstract functions. */
module Commands {
  import opened Options
  import opened Jsons
  import opened Decimals

  datatype Command = Command(id: string, target: string, command: string, payload: Json,
                             expiresAt: Int64, timestamp: Int64, signature: string)

  datatype CommandResult = CommandResult(id: string, ok: bool, message: string, errorCode: int, data: Json)

  const REPORT_LINK := "REPORT_LINK"
  const EMPTY_OBJECT := Object(map[])

  datatype ErrorCode = InvalidArg | PermissionDenied | Timeout | CryptoError

  function ToInt(e: ErrorCode): int {
    match e
    case InvalidArg => 1001
    case Timeout => 1004
    case PermissionDenied => 1005
    case CryptoError => 1400
  }

  datatype Problem = Problem(code: ErrorCode, message: string)

  /** Ed25519 as two functions; a key pair accepts every signature it makes. */
  datatype Crypto = Crypto(sign: (string, string) -> Option<string>, verify: (string, string, string) -> bool)
  {
    ghost predicate KeyPair(secret: string, public: string) {
      && public != ""
      && forall m {:trigger sign(m, secret)} ::
           sign(m, secret).Some? ==> sign(m, secret).value != "" && verify(m, sign(m, secret).value, public)
    }
  }

  /** canonicalString: the fields, one after the other, a line break between each two. */
  function Canonical(c: Command, dump: Json -> string): string {
    c.id + ['\n'] + (c.target + ['\n'] + (c.command + ['\n'] + Rest(c, dump)))
  }

  /** The payload's line and what follows it. */
  function Rest(c: Command, dump: Json -> string): string {
    dump(c.payload) + ['\n'] + Decimal(c.expiresAt) + ['\n'] + Decimal(c.timestamp)
  }

  /** No line break in any of the three names. */
  predicate OneLiners(c: Command) {
    '\n' !in c.id && '\n' !in c.target && '\n' !in c.command
  }

  function Unsigned(c: Command): Command {
    c.(signature := "")
  }

  lemma RestInjective(c: Command, d: Command, codec: Codec)
    requires codec.RoundTrips() && Rest(c, codec.dump) == Rest(d, codec.dump)
    ensures c.payload == d.payload && c.expiresAt == d.expiresAt && c.timestamp == d.timestamp
  {
    DecimalOneLine(c.timestamp);
    DecimalOneLine(d.timestamp);
    DecimalOneLine(c.expiresAt);
    DecimalOneLine(d.expiresAt);
    SplitAtLast('\n', codec.dump(c.payload) + ['\n'] + Decimal(c.expiresAt), Decimal(c.timestamp),
                codec.dump(d.payload) + ['\n'] + Decimal(d.expiresAt), Decimal(d.timestamp));
    SplitAtLast('\n', codec.dump(c.payload), Decimal(c.expiresAt), codec.dump(d.payload), Decimal(d.expiresAt));
    DecimalInjective(c.timestamp, d.timestamp);
    DecimalInjective(c.expiresAt, d.expiresAt);
    assert codec.parse(codec.dump(c.payload)) == codec.parse(codec.dump(d.payload));
  }

  /** The signed text determines the command, as long as its names hold no line break. */
  lemma CanonicalInjective(c: Command, d: Command, codec: Codec)
    requires codec.RoundTrips() && OneLiners(c) && OneLiners(d)
    requires Canonical(c, codec.dump) == Canonical(d, codec.dump)
    ensures Unsigned(c) == Unsigned(d)
  {
    var c2, d2 := c.command + ['\n'] + Rest(c, codec.dump), d.command + ['\n'] + Rest(d, codec.dump);
    SplitAt('\n', c.id, c.target + ['\n'] + c2, d.id, d.target + ['\n'] + d2);
    SplitAt('\n', c.target, c2, d.target, d2);
    SplitAt('\n', c.command, Rest(c, codec.dump), d.command, Rest(d, codec.dump));
    RestInjective(c, d, codec);
  }

  lemma BrokenAt(s: string) returns (a: string, b: string)
    requires '\n' in s
    ensures s == a + ['\n'] + b
  {
    var i :| 0 <= i < |s| && s[i] == '\n';
    a, b := s[..i], s[i + 1..];
  }

  /** A line break may belong to either side of the next one. */
  lemma Regroup(a: string, b: string, x: string)
    ensures (a + ['\n'] + b) + ['\n'] + x == a + ['\n'] + (b + ['\n'] + x)
  {
  }

  /** Otherwise another command has the same text: the line break may as well end a field. */
  lemma CanonicalAmbiguous(c: Command, dump: Json -> string) returns (d: Command)
    requires !OneLiners(c)
    ensures Canonical(d, dump) == Canonical(c, dump) && Unsigned(d) != Unsigned(c)
  {
    var tail := c.command + ['\n'] + Rest(c, dump);
    if '\n' in c.id {
      var a, b := BrokenAt(c.id);
      d := c.(id := a, target := b + ['\n'] + c.target);
      Regroup(a, b, c.target + ['\n'] + tail);
      Regroup(b, c.target, tail);
      assert |d.target| > |c.target|;
    } else if '\n' in c.target {
      var a, b := BrokenAt(c.target);
      d := c.(target := a, command := b + ['\n'] + c.command);
      Regroup(a, b, tail);
      Regroup(b, c.command, Rest(c, dump));
      assert |d.command| > |c.command|;
    } else {
      var a, b := BrokenAt(c.command);
      d := c.(target := c.target + ['\n'] + a, command := b);
      Regroup(a, b, Rest(c, dump));
      Regroup(c.target, a, b + ['\n'] + Rest(c, dump));
      assert |d.target| > |c.target|;
    }
  }

  /** None stands for the exception of a wrongly typed field. */
  function FromJson(j: Json): Option<Command> {
    var id := TextOr(j, "command_id", "");
    var target := TextOr(j, "target_id", "");
    var name := TextOr(j, "command", "");
    var expires := Int64Or(j, "expires_at", 0);
    var stamp := Int64Or(j, "timestamp", 0);
    var signature := TextOr(j, "signature", "");
    if id.None? || target.None? || name.None? || expires.None? || stamp.None? || signature.None? then None
    else
      var payload := if "payload" in j.members && j.members["payload"].Object? then j.members["payload"]
                     else EMPTY_OBJECT;
      Some(Command(id.value, target.value, name.value, payload, expires.value, stamp.value, signature.value))
  }

  function ToJson(c: Command): Json {
    Object(map["type" := Str("command"), "command_id" := Str(c.id), "target_id" := Str(c.target),
               "command" := Str(c.command), "payload" := c.payload, "expires_at" := Int(c.expiresAt),
               "timestamp" := Int(c.timestamp), "signature" := Str(c.signature)])
  }

  /** What a command looks like after the wire: only a non-object payload is lost. */
  function Delivered(c: Command): Command {
    if c.payload.Object? then c else c.(payload := EMPTY_OBJECT)
  }

  lemma WireRoundTrip(c: Command)
    ensures FromJson(ToJson(c)) == Some(Delivered(c))
    ensures FromJson(ToJson(c)) == Some(c) <==> c.payload.Object?
  {
    ToInt64Same(c.expiresAt);
    ToInt64Same(c.timestamp);
    ReadsBack(c);
    if !c.payload.Object? {
      assert Delivered(c).payload.Object?;
    }
  }

  lemma ReadsBack(c: Command)
    requires ToInt64(c.expiresAt) == c.expiresAt && ToInt64(c.timestamp) == c.timestamp
    ensures FromJson(ToJson(c)) == Some(Delivered(c))
  {
    TextFields(c);
    OtherFields(c);
  }

  lemma TextFields(c: Command)
    ensures var m := ToJson(c).members;
            && "command_id" in m && m["command_id"] == Str(c.id)
            && "target_id" in m && m["target_id"] == Str(c.target)
            && "command" in m && m["command"] == Str(c.command)
            && "signature" in m && m["signature"] == Str(c.signature)
  {
  }

  lemma OtherFields(c: Command)
    ensures var m := ToJson(c).members;
            && "payload" in m && m["payload"] == c.payload
            && "expires_at" in m && m["expires_at"] == Int(c.expiresAt)
            && "timestamp" in m && m["timestamp"] == Int(c.timestamp)
  {
  }

  function Validate(c: Command, deviceId: string, public: string, now: Int64, codec: Codec, crypto: Crypto)
    : Option<Problem>
  {
    if c.id == "" then Some(Problem(InvalidArg, "command missing command_id"))
    else if c.command == "" then Some(Problem(InvalidArg, "command missing command name"))
    else if c.target != "" && c.target != deviceId then Some(Problem(PermissionDenied, "command target mismatch"))
    else if c.expiresAt != 0 && now > c.expiresAt then Some(Problem(Timeout, "command expired"))
    else if public == "" then Some(Problem(PermissionDenied, "device not paired to a streamer"))
    else if c.signature == "" then Some(Problem(PermissionDenied, "command not signed"))
    else if !crypto.verify(Canonical(c, codec.dump), c.signature, public) then
      Some(Problem(CryptoError, "command signature invalid"))
    else None
  }

  /** CommandSigner::build; None when signing fails. */
  function Build(id: string, target: string, command: string, payload: Json, expiresAt: Int64,
                 timestamp: Int64, secret: string, codec: Codec, crypto: Crypto): Option<Command>
  {
    var body := if payload.Object? then payload else EMPTY_OBJECT;
    var c := Command(id, target, command, body, expiresAt, timestamp, "");
    match crypto.sign(Canonical(c, codec.dump), secret)
    case None => None
    case Some(s) => Some(c.(signature := s))
  }

  predicate Expired(expiresAt: Int64, now: Int64) {
    expiresAt != 0 && now > expiresAt
  }

  /** A built command survives the wire unchanged and passes the speaker's validator exactly when it
      names a command and has not expired, for any payload, object or not. */
  lemma BuiltIsAccepted(id: string, target: string, command: string, payload: Json, expiresAt: Int64,
                        timestamp: Int64, secret: string, public: string, codec: Codec, crypto: Crypto,
                        deviceId: string, now: Int64)
    requires crypto.KeyPair(secret, public) && codec.RoundTrips()
    requires id != "" && (target == deviceId || target == "")
    ensures var built := Build(id, target, command, payload, expiresAt, timestamp, secret, codec, crypto);
            built.Some? ==>
              && codec.parse(codec.dump(ToJson(built.value))).Some?
              && FromJson(codec.parse(codec.dump(ToJson(built.value))).value) == built
              && (Validate(built.value, deviceId, public, now, codec, crypto).None?
                  <==> command != "" && !Expired(expiresAt, now))
  {
    var built := Build(id, target, command, payload, expiresAt, timestamp, secret, codec, crypto);
    if built.Some? {
      var c := built.value;
      WireRoundTrip(c);
      var unsigned := c.(signature := "");
      assert Canonical(c, codec.dump) == Canonical(unsigned, codec.dump);
      var m := Canonical(unsigned, codec.dump);
      assert crypto.sign(m, secret) == Some(c.signature);
      assert crypto.verify(m, c.signature, public);
      assert c.signature != "";
    }
  }
}

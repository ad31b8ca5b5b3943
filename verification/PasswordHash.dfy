/** The stored form of a password and its verification (server/internal/auth/password.go). Argon2id over the
    peppered password is a parameter: any function of password, pepper, salt and costs. */
module PasswordHash {
  import opened Wrappers
  import opened Strings
  import opened ByteStrings
  import Base64

  const ALGORITHM := "argon2id"
  const MEMORY_KIB := 65536
  const ITERATIONS := 3
  const PARALLELISM := 4
  const KEY_LENGTH := 32
  const SALT_LENGTH := 16
  const UINT32_MAX := 0xFFFF_FFFF

  datatype Error = InvalidPassword | InvalidHash | PepperMissing

  datatype PepperSet = PepperSet(currentID: string, current: Bytes, previousID: string, previous: Bytes)

  datatype Parameters = Parameters(memoryKiB: nat, iterations: nat, parallelism: nat, pepperID: string)

  datatype Stored = Stored(params: Parameters, salt: Bytes, hash: Bytes)

  datatype Verdict = Verdict(valid: bool, needsRehash: bool)

  /** deriveArgon2id. */
  type Kdf = (string, Bytes, Bytes, Parameters) -> Bytes

  ghost predicate FixedLength(derive: Kdf) {
    forall pw, pepper, salt, params :: |derive(pw, pepper, salt, params)| == KEY_LENGTH
  }

  // ---------- pepper identifiers ----------

  predicate IDChar(c: char) {
    'a' <= c <= 'z' || 'A' <= c <= 'Z' || '0' <= c <= '9' || c in "-_."
  }

  predicate AllIDChars(id: string) { forall i :: 0 <= i < |id| ==> IDChar(id[i]) }

  predicate IDFits(id: string) { id != [] && |id| <= 32 && AllIDChars(id) }

  predicate ValidPepperID(raw: string) { IDFits(TrimSpace(raw)) }

  method CheckPepperID(raw: string) returns (ok: bool)
    ensures ok == ValidPepperID(raw)
  {
    var id := TrimSpace(raw);
    if id == [] || |id| > 32 { return false; }
    for i := 0 to |id|
      invariant forall j :: 0 <= j < i ==> IDChar(id[j])
    {
      if !IDChar(id[i]) { return false; }
    }
    return true;
  }

  predicate CurrentPepperUsable(peppers: PepperSet) {
    ValidPepperID(peppers.currentID) && peppers.current != []
  }

  function Lookup(p: PepperSet, id: string): Result<(Bytes, bool), Error> {
    LookupTrimmed(p, TrimSpace(p.currentID), TrimSpace(p.previousID), id)
  }

  function LookupTrimmed(p: PepperSet, currentID: string, previousID: string, id: string): Result<(Bytes, bool), Error> {
    if id == currentID && p.current != [] then Ok((p.current, true))
    else if id == previousID && p.previous != [] then Ok((p.previous, false))
    else Err(PepperMissing)
  }

  predicate ValidPassword(password: string) { 8 <= |password| <= 128 }

  // ---------- printing ----------

  function PrintParameters(p: Parameters): string {
    Join(PrintedEntries(p), ',')
  }

  function PrintedEntries(p: Parameters): seq<string> {
    [ "m=" + FormatUint(p.memoryKiB), "t=" + FormatUint(p.iterations),
      "p=" + FormatUint(p.parallelism), "pepper=" + p.pepperID ]
  }

  function Print(s: Stored): string {
    Join([ "", ALGORITHM, "v=19", PrintParameters(s.params), Base64.Encode(s.salt), Base64.Encode(s.hash) ], '$')
  }

  /** The random salt is the parameter `salt`. */
  function HashPassword(password: string, peppers: PepperSet, salt: Bytes, derive: Kdf): Result<string, Error> {
    if !ValidPassword(password) then Err(InvalidPassword)
    else if !CurrentPepperUsable(peppers) then Err(PepperMissing)
    else
      var params := Parameters(MEMORY_KIB, ITERATIONS, PARALLELISM, TrimSpace(peppers.currentID));
      Ok(Print(Stored(params, salt, derive(password, peppers.current, salt, params))))
  }

  // ---------- parsing ----------

  predicate EntryOk(entry: string) {
    var kv := Cut(entry, '=');
    kv.Some? && kv.value.0 != [] && kv.value.1 != []
  }

  /** The `key=value` entries added to `values`; None if an entry is malformed or a key comes twice. */
  function Entries(entries: seq<string>, values: map<string, string>): Option<map<string, string>> {
    if entries == [] then Some(values)
    else if !EntryOk(entries[0]) then None
    else
      var (key, value) := Cut(entries[0], '=').value;
      if key in values then None else Entries(entries[1..], values[key := value])
  }

  function Number(values: map<string, string>, key: string): Option<nat> {
    if key in values then ParseUint(values[key], UINT32_MAX) else None
  }

  function ParseParameters(raw: string): Result<Parameters, Error> {
    match Entries(Split(raw, ','), map[])
    case None => Err(InvalidHash)
    case Some(values) => Interpret(values)
  }

  function Interpret(values: map<string, string>): Result<Parameters, Error> {
    var m, t, p := Number(values, "m"), Number(values, "t"), Number(values, "p");
    if |values| == 4 && m.Some? && 8192 <= m.value <= 262144 && t.Some? && 1 <= t.value <= 10
       && p.Some? && 1 <= p.value <= 8 && "pepper" in values && ValidPepperID(values["pepper"])
    then Ok(Parameters(m.value, t.value, p.value, values["pepper"]))
    else Err(InvalidHash)
  }

  /** The loop of the code: it fills a map and gives up at the first bad entry. */
  method ReadParameters(raw: string) returns (r: Result<Parameters, Error>)
    ensures r == ParseParameters(raw)
  {
    var entries := Split(raw, ',');
    var values: map<string, string> := map[];
    for i := 0 to |entries|
      invariant Entries(entries[i..], values) == Entries(entries, map[])
    {
      assert entries[i..][1..] == entries[i + 1..];
      var kv := Cut(entries[i], '=');
      if kv.None? || kv.value.0 == [] || kv.value.1 == [] || kv.value.0 in values {
        return Err(InvalidHash);
      }
      values := values[kv.value.0 := kv.value.1];
    }
    r := Interpret(values);
  }

  function Parse(encoded: string): Result<Stored, Error> {
    var parts := Split(encoded, '$');
    if |parts| != 6 || parts[0] != "" || parts[1] != ALGORITHM || parts[2] != "v=19" then Err(InvalidHash)
    else match ParseParameters(parts[3])
      case Err(e) => Err(e)
      case Ok(params) =>
        var salt, hash := Base64.Decode(parts[4]), Base64.Decode(parts[5]);
        if salt.None? || |salt.value| != SALT_LENGTH || hash.None? || |hash.value| != KEY_LENGTH then Err(InvalidHash)
        else Ok(Stored(params, salt.value, hash.value))
  }

  function Verify(password: string, encoded: string, peppers: PepperSet, derive: Kdf): Result<Verdict, Error> {
    if !ValidPassword(password) then Err(InvalidPassword)
    else match Parse(encoded)
      case Err(e) => Err(e)
      case Ok(s) => VerifyStored(password, s, peppers, derive)
  }

  function VerifyStored(password: string, s: Stored, peppers: PepperSet, derive: Kdf): Result<Verdict, Error> {
    match Lookup(peppers, s.params.pepperID)
    case Err(e) => Err(e)
    case Ok((pepper, isCurrent)) =>
      if s.hash != derive(password, pepper, s.salt, s.params) then Ok(Verdict(false, false))
      else Ok(Verdict(true, !isCurrent || s.params.memoryKiB != MEMORY_KIB || s.params.iterations != ITERATIONS
                            || s.params.parallelism != PARALLELISM || |s.hash| != KEY_LENGTH))
  }

  // ---------- what the printed form holds comes back ----------

  /** Anything the parser accepts: the cost bounds, an identifier that is valid as it stands, the fixed lengths. */
  predicate WellFormed(s: Stored) {
    && 8192 <= s.params.memoryKiB <= 262144 && 1 <= s.params.iterations <= 10 && 1 <= s.params.parallelism <= 8
    && s.params.pepperID != [] && |s.params.pepperID| <= 32 && AllIDChars(s.params.pepperID)
    && |s.salt| == SALT_LENGTH && |s.hash| == KEY_LENGTH
  }

  lemma TrimOfID(id: string)
    requires AllIDChars(id)
    ensures TrimSpace(id) == id
  {
    if id != [] { assert IDChar(id[0]) && IDChar(id[|id| - 1]); }
    TrimNothing(id, IsSpace);
  }

  function PrintedValues(p: Parameters): map<string, string> {
    map["m" := FormatUint(p.memoryKiB), "t" := FormatUint(p.iterations),
        "p" := FormatUint(p.parallelism), "pepper" := p.pepperID]
  }

  lemma KeysDiffer()
    ensures "m" != "t" && "m" != "p" && "t" != "p" && "pepper" != "m" && "pepper" != "t" && "pepper" != "p"
  {
    assert "m"[0] == 'm' && "t"[0] == 't' && "p"[0] == 'p' && |"pepper"| == 6;
  }

  lemma EntriesOfPrinted(p: Parameters)
    requires p.pepperID != []
    ensures Entries(PrintedEntries(p), map[]) == Some(PrintedValues(p))
  {
    var m, t, q, id := FormatUint(p.memoryKiB), FormatUint(p.iterations), FormatUint(p.parallelism), p.pepperID;
    var e1, e2, e3, e4 := "m=" + m, "t=" + t, "p=" + q, "pepper=" + id;
    KeysDiffer();
    assert "m=" == "m" + "=" && "t=" == "t" + "=" && "p=" == "p" + "=" && "pepper=" == "pepper" + "=";
    CutEntry("m", m); CutEntry("t", t); CutEntry("p", q); CutEntry("pepper", id);
    var m1 := map["m" := m];
    var m2 := m1["t" := t];
    var m3 := m2["p" := q];
    var m4 := m3["pepper" := id];
    assert Entries([], m4) == Some(m4);
    assert [e4][1..] == [];
    assert Entries([e4], m3) == Some(m4);
    assert [e3, e4][1..] == [e4];
    assert Entries([e3, e4], m2) == Some(m4);
    assert [e2, e3, e4][1..] == [e3, e4];
    assert Entries([e2, e3, e4], m1) == Some(m4);
    assert [e1, e2, e3, e4][1..] == [e2, e3, e4];
    assert PrintedEntries(p) == [e1, e2, e3, e4];
    assert m4 == PrintedValues(p);
  }

  lemma CutEntry(key: string, value: string)
    requires '=' !in key
    ensures Cut(key + "=" + value, '=') == Some((key, value))
  {
    CutAt(key, '=', value);
  }

  lemma EntriesAvoid(p: Parameters, c: char)
    requires c in ",$" && AllIDChars(p.pepperID)
    ensures forall entry :: entry in PrintedEntries(p) ==> c !in entry
  {
    assert !IDChar(c) && !IsDigit(c);
  }

  lemma ParametersRoundTrip(p: Parameters)
    requires 8192 <= p.memoryKiB <= 262144 && 1 <= p.iterations <= 10 && 1 <= p.parallelism <= 8
    requires p.pepperID != [] && |p.pepperID| <= 32 && AllIDChars(p.pepperID)
    ensures ParseParameters(PrintParameters(p)) == Ok(p)
    ensures '$' !in PrintParameters(p)
  {
    EntriesAvoid(p, ',');
    EntriesAvoid(p, '$');
    SplitJoin(PrintedEntries(p), ',');
    JoinAvoids(PrintedEntries(p), ',', '$');
    EntriesOfPrinted(p);
    InterpretPrinted(p);
  }

  lemma FourKeys(a: string, b: string, c: string, d: string)
    ensures |map["m" := a, "t" := b, "p" := c, "pepper" := d]| == 4
  {
    KeysDiffer();
    var values := map["m" := a, "t" := b, "p" := c, "pepper" := d];
    assert values.Keys == {"m", "t", "p", "pepper"};
    assert |values| == |values.Keys|;
  }

  lemma PrintedNumber(values: map<string, string>, key: string, n: nat)
    requires key in values && values[key] == FormatUint(n) && n <= UINT32_MAX
    ensures Number(values, key) == Some(n)
  {
  }

  lemma InterpretPrinted(p: Parameters)
    requires 8192 <= p.memoryKiB <= 262144 && 1 <= p.iterations <= 10 && 1 <= p.parallelism <= 8
    requires p.pepperID != [] && |p.pepperID| <= 32 && AllIDChars(p.pepperID)
    ensures Interpret(PrintedValues(p)) == Ok(p)
  {
    var values := PrintedValues(p);
    KeysDiffer();
    FourKeys(FormatUint(p.memoryKiB), FormatUint(p.iterations), FormatUint(p.parallelism), p.pepperID);
    PrintedNumber(values, "m", p.memoryKiB);
    PrintedNumber(values, "t", p.iterations);
    PrintedNumber(values, "p", p.parallelism);
    assert values["pepper"] == p.pepperID;
    assert ValidPepperID(p.pepperID) by { TrimOfID(p.pepperID); }
  }

  lemma {:induction false} JoinAvoids(parts: seq<string>, sep: char, c: char)
    requires c != sep && forall p :: p in parts ==> c !in p
    ensures c !in Join(parts, sep)
  {
    if |parts| > 1 { JoinAvoids(parts[1..], sep, c); }
  }

  lemma EncodedAvoidsDollar(plain: Bytes)
    ensures '$' !in Base64.Encode(plain)
  {
    assert Base64.Sextet('$').None?;
  }

  lemma LiteralsAvoidDollar()
    ensures '$' !in ALGORITHM && '$' !in "v=19"
  {
  }

  lemma SplitSix(a: string, b: string, c: string, d: string, e: string, f: string)
    requires '$' !in a && '$' !in b && '$' !in c && '$' !in d && '$' !in e && '$' !in f
    ensures Split(Join([a, b, c, d, e, f], '$'), '$') == [a, b, c, d, e, f]
  {
    var parts := [a, b, c, d, e, f];
    forall p | p in parts ensures '$' !in p { }
    SplitJoin(parts, '$');
  }

  lemma SplitPrinted(s: Stored)
    requires WellFormed(s)
    ensures Split(Print(s), '$')
         == [ "", ALGORITHM, "v=19", PrintParameters(s.params), Base64.Encode(s.salt), Base64.Encode(s.hash) ]
  {
    ParametersRoundTrip(s.params);
    EncodedAvoidsDollar(s.salt);
    EncodedAvoidsDollar(s.hash);
    LiteralsAvoidDollar();
    SplitSix("", ALGORITHM, "v=19", PrintParameters(s.params), Base64.Encode(s.salt), Base64.Encode(s.hash));
  }

  /** Parsing the printed form returns exactly the parameters, salt and hash that were printed. */
  lemma ParsePrint(s: Stored)
    requires WellFormed(s)
    ensures Parse(Print(s)) == Ok(s)
  {
    ParametersRoundTrip(s.params);
    Base64.DecodeEncode(s.salt);
    Base64.DecodeEncode(s.hash);
    SplitPrinted(s);
  }

  lemma HashedParses(password: string, peppers: PepperSet, salt: Bytes, derive: Kdf)
    requires FixedLength(derive) && |salt| == SALT_LENGTH && ValidPassword(password) && CurrentPepperUsable(peppers)
    ensures var params := Parameters(MEMORY_KIB, ITERATIONS, PARALLELISM, TrimSpace(peppers.currentID));
            && HashPassword(password, peppers, salt, derive).Ok?
            && Parse(HashPassword(password, peppers, salt, derive).value)
               == Ok(Stored(params, salt, derive(password, peppers.current, salt, params)))
  {
    var params := Parameters(MEMORY_KIB, ITERATIONS, PARALLELISM, TrimSpace(peppers.currentID));
    ParsePrint(Stored(params, salt, derive(password, peppers.current, salt, params)));
  }

  /** A freshly hashed password verifies without a rehash, and another password verifies exactly
      when it derives the same key. */
  lemma FreshHashVerifies(password: string, other: string, peppers: PepperSet, salt: Bytes, derive: Kdf)
    requires FixedLength(derive) && |salt| == SALT_LENGTH && ValidPassword(password) && CurrentPepperUsable(peppers)
    ensures var encoded := HashPassword(password, peppers, salt, derive);
            var params := Parameters(MEMORY_KIB, ITERATIONS, PARALLELISM, TrimSpace(peppers.currentID));
            && encoded.Ok?
            && Verify(password, encoded.value, peppers, derive) == Ok(Verdict(true, false))
            && (ValidPassword(other) ==>
                  Verify(other, encoded.value, peppers, derive)
                  == if derive(other, peppers.current, salt, params) == derive(password, peppers.current, salt, params)
                     then Ok(Verdict(true, false)) else Ok(Verdict(false, false)))
  {
    HashedParses(password, peppers, salt, derive);
  }

  lemma LookupAfterRotation(rotated: PepperSet, currentID: string, previousID: string, id: string, pepper: Bytes)
    requires currentID != id && pepper != []
    ensures previousID == id && rotated.previous == pepper ==>
              LookupTrimmed(rotated, currentID, previousID, id) == Ok((pepper, false))
    ensures previousID != id ==> LookupTrimmed(rotated, currentID, previousID, id) == Err(PepperMissing)
  {
  }

  lemma RotatedVerdict(password: string, s: Stored, rotated: PepperSet, pepper: Bytes, derive: Kdf)
    requires s.hash == derive(password, pepper, s.salt, s.params)
    ensures Lookup(rotated, s.params.pepperID) == Ok((pepper, false)) ==>
              VerifyStored(password, s, rotated, derive) == Ok(Verdict(true, true))
    ensures Lookup(rotated, s.params.pepperID) == Err(PepperMissing) ==>
              VerifyStored(password, s, rotated, derive) == Err(PepperMissing)
  {
  }

  /** Hashing and verifying refuse passwords of fewer than 8 or more than 128 characters, and hashing needs a current
      pepper under an identifier of 1 to 32 allowed characters. */
  lemma HashesIff(password: string, peppers: PepperSet, salt: Bytes, derive: Kdf, encoded: string)
    ensures HashPassword(password, peppers, salt, derive).Ok? <==>
              8 <= |password| <= 128 && peppers.current != [] && IDFits(TrimSpace(peppers.currentID))
    ensures !(8 <= |password| <= 128) ==>
      && HashPassword(password, peppers, salt, derive) == Err(InvalidPassword)
      && Verify(password, encoded, peppers, derive) == Err(InvalidPassword)
  {
  }

  /** Verifying under the current pepper asks for a rehash if and only if some cost is not today's. */
  lemma RehashIff(password: string, s: Stored, peppers: PepperSet, derive: Kdf)
    requires WellFormed(s) && ValidPassword(password)
    requires TrimSpace(peppers.currentID) == s.params.pepperID && peppers.current != []
    requires s.hash == derive(password, peppers.current, s.salt, s.params)
    ensures Verify(password, Print(s), peppers, derive)
         == Ok(Verdict(true, s.params.memoryKiB != 65536 || s.params.iterations != 3 || s.params.parallelism != 4))
  {
    ParsePrint(s);
    VerifyParsed(password, Print(s), s, peppers, derive);
  }

  lemma NumberOfPrinted(values: map<string, string>, key: string, n: nat)
    requires key in values && values[key] == FormatUint(n)
    ensures Number(values, key) == if n <= UINT32_MAX then Some(n) else None
  {
  }

  predicate CostsInRange(p: Parameters) {
    8192 <= p.memoryKiB <= 262144 && 1 <= p.iterations <= 10 && 1 <= p.parallelism <= 8
  }

  lemma InterpretedIff(p: Parameters)
    requires p.pepperID != [] && |p.pepperID| <= 32 && AllIDChars(p.pepperID)
    ensures Interpret(PrintedValues(p)) == if CostsInRange(p) then Ok(p) else Err(InvalidHash)
  {
    if CostsInRange(p) {
      InterpretPrinted(p);
    } else {
      var values := PrintedValues(p);
      KeysDiffer();
      NumberOfPrinted(values, "m", p.memoryKiB);
      NumberOfPrinted(values, "t", p.iterations);
      NumberOfPrinted(values, "p", p.parallelism);
    }
  }

  lemma PrintedParametersParseIff(p: Parameters)
    requires p.pepperID != [] && |p.pepperID| <= 32 && AllIDChars(p.pepperID)
    ensures ParseParameters(PrintParameters(p)) == if CostsInRange(p) then Ok(p) else Err(InvalidHash)
    ensures '$' !in PrintParameters(p)
  {
    EntriesAvoid(p, ',');
    EntriesAvoid(p, '$');
    SplitJoin(PrintedEntries(p), ',');
    JoinAvoids(PrintedEntries(p), ',', '$');
    EntriesOfPrinted(p);
    InterpretedIff(p);
  }

  /** A printed hash is accepted if and only if its costs are in range and salt and key have their lengths. */
  lemma ParsesIff(s: Stored)
    requires s.params.pepperID != [] && |s.params.pepperID| <= 32 && AllIDChars(s.params.pepperID)
    ensures Parse(Print(s)) ==
      if && 8192 <= s.params.memoryKiB <= 262144 && 1 <= s.params.iterations <= 10 && 1 <= s.params.parallelism <= 8
         && |s.salt| == 16 && |s.hash| == 32
      then Ok(s) else Err(InvalidHash)
  {
    PrintedParametersParseIff(s.params);
    EncodedAvoidsDollar(s.salt);
    EncodedAvoidsDollar(s.hash);
    LiteralsAvoidDollar();
    SplitSix("", ALGORITHM, "v=19", PrintParameters(s.params), Base64.Encode(s.salt), Base64.Encode(s.hash));
    Base64.DecodeEncode(s.salt);
    Base64.DecodeEncode(s.hash);
  }

  /** After a rotation the old hash still verifies and asks for a rehash while its pepper is kept as the previous one
      under the same identifier; once neither identifier names it, verification reports a missing pepper. */
  lemma RotationAsksForRehash(password: string, before: PepperSet, rotated: PepperSet, salt: Bytes, derive: Kdf)
    requires FixedLength(derive) && |salt| == SALT_LENGTH && ValidPassword(password) && CurrentPepperUsable(before)
    requires TrimSpace(rotated.currentID) != TrimSpace(before.currentID)
    ensures var encoded := HashPassword(password, before, salt, derive);
            && encoded.Ok?
            && (TrimSpace(rotated.previousID) == TrimSpace(before.currentID) && rotated.previous == before.current ==>
                  Verify(password, encoded.value, rotated, derive) == Ok(Verdict(true, true)))
            && (TrimSpace(rotated.previousID) != TrimSpace(before.currentID) ==>
                  Verify(password, encoded.value, rotated, derive) == Err(PepperMissing))
  {
    HashedParses(password, before, salt, derive);
    var id := TrimSpace(before.currentID);
    var params := Parameters(MEMORY_KIB, ITERATIONS, PARALLELISM, id);
    var encoded := HashPassword(password, before, salt, derive).value;
    var s := Stored(params, salt, derive(password, before.current, salt, params));
    VerifyParsed(password, encoded, s, rotated, derive);
    RotatedVerdict(password, s, rotated, before.current, derive);
    LookupAfterRotation(rotated, TrimSpace(rotated.currentID), TrimSpace(rotated.previousID), id, before.current);
  }

  /** Verification of a text whose parse is known. */
  lemma VerifyParsed(password: string, encoded: string, s: Stored, peppers: PepperSet, derive: Kdf)
    requires ValidPassword(password) && Parse(encoded) == Ok(s)
    ensures Verify(password, encoded, peppers, derive) == VerifyStored(password, s, peppers, derive)
  {
  }
}

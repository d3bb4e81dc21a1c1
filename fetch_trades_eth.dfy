/**
 * `parse_trade` of fetch_trades_eth.py: a trade record from one of several exchange APIs,
 * as a dictionary from field names to JSON values, normalised to `(ts, price, vol, side)`.
 * Each field family is read from the first of its keys that is present; a missing family,
 * or a value the Python conversion rejects, is an error.
 */
module TradeRecords {
  import opened Wrappers

  /** A JSON value as `json()` hands it to `parse_trade`: a scalar, a list or an object. */
  datatype Value =
    | VInt(i: int) | VReal(r: real) | VStr(s: string) | VBool(b: bool) | VNull
    | VList(items: seq<Value>) | VObj(fields: map<string, Value>)

  type Record = map<string, Value>

  /** The normalised tuple: seconds, price, volume and "B" or "S". */
  datatype Trade = Trade(ts: real, price: real, vol: real, side: string)

  /** `ValueError("Unknown ... field")` for a missing family, or the error a conversion raises. */
  datatype ParseError = UnknownField(family: string) | BadValue(key: string)

  // ---------------------------------------------------------------------------
  // Python's int() and float() on the values a record can hold

  predicate IsDigit(c: char) {
    '0' <= c <= '9'
  }

  predicate AllDigits(s: string) {
    forall i :: 0 <= i < |s| ==> IsDigit(s[i])
  }

  /** The number a run of decimal digits spells. */
  function DigitsValue(s: string): (n: nat)
    requires AllDigits(s)
  {
    if s == [] then 0 else DigitsValue(s[..|s| - 1]) * 10 + (s[|s| - 1] - '0') as nat
  }

  /** An optional sign, then what follows it. */
  function SignOf(s: string): (r: (int, string))
    ensures r.0 == 1 || r.0 == -1
    ensures |r.1| <= |s|
  {
    if |s| > 0 && s[0] == '-' then (-1, s[1..])
    else if |s| > 0 && s[0] == '+' then (1, s[1..])
    else (1, s)
  }

  /** `int(s)` for a string: an optional sign and at least one digit. */
  function ParseInt(s: string): Option<int> {
    var (sign, body) := SignOf(s);
    if body != [] && AllDigits(body) then Some(sign * DigitsValue(body)) else None
  }

  /** `10^k`. */
  function Pow10(k: nat): (r: nat)
    ensures r >= 1
  {
    if k == 0 then 1 else 10 * Pow10(k - 1)
  }

  /** Where the first '.' is, or |s| when there is none. */
  function DotAt(s: string): (k: nat)
    ensures k <= |s|
    ensures forall i :: 0 <= i < k ==> s[i] != '.'
    ensures k < |s| ==> s[k] == '.'
  {
    if s == [] then 0 else if s[0] == '.' then 0 else 1 + DotAt(s[1..])
  }

  /** `float(s)` for a plain decimal string: an optional sign, digits, at most one '.', at least one digit. */
  function ParseDecimal(s: string): Option<real> {
    var (sign, body) := SignOf(s);
    var k := DotAt(body);
    var whole := body[..k];
    var frac := if k < |body| then body[k + 1..] else [];
    if AllDigits(whole) && AllDigits(frac) && |whole| + |frac| > 0 then
      Some(sign as real * (DigitsValue(whole) as real + DigitsValue(frac) as real / Pow10(|frac|) as real))
    else None
  }

  /** `int(x)` truncates a float toward zero. */
  function Trunc(r: real): int {
    if r >= 0.0 then r.Floor else -((-r).Floor)
  }

  /** `int(v)`; None where Python raises. */
  function ToInt(v: Value): Option<int> {
    match v
    case VInt(i) => Some(i)
    case VReal(r) => Some(Trunc(r))
    case VStr(s) => ParseInt(s)
    case VBool(b) => Some(if b then 1 else 0)
    case _ => None
  }

  /** `float(v)`; None where Python raises. */
  function ToFloat(v: Value): Option<real> {
    match v
    case VInt(i) => Some(i as real)
    case VReal(r) => Some(r)
    case VStr(s) => ParseDecimal(s)
    case VBool(b) => Some(if b then 1.0 else 0.0)
    case _ => None
  }

  /** Python truthiness of a value. */
  predicate Truthy(v: Value) {
    match v
    case VInt(i) => i != 0
    case VReal(r) => r != 0.0
    case VStr(s) => s != []
    case VBool(b) => b
    case VNull => false
    case VList(items) => items != []
    case VObj(fields) => fields != map[]
  }

  /** `str.upper()` on one ASCII character. */
  function UpperChar(c: char): char {
    if 'a' <= c <= 'z' then (c as int - 32) as char else c
  }

  /** `str.upper()` on the ASCII letters. */
  function Upper(s: string): (r: string)
    ensures |r| == |s|
    ensures forall i :: 0 <= i < |s| ==> r[i] == UpperChar(s[i])
  {
    if s == [] then [] else [UpperChar(s[0])] + Upper(s[1..])
  }

  // ---------------------------------------------------------------------------
  // parse_trade

  /** The first of three keys the record holds, if any. */
  function FirstOf(t: Record, k1: string, k2: string, k3: string): (r: Option<string>)
    ensures r.Some? ==> r.value in t
  {
    if k1 in t then Some(k1) else if k2 in t then Some(k2) else if k3 in t then Some(k3) else None
  }

  /** The timestamp: `int(t[k]) / 1000.0` for the first of T, time, execTime. */
  function ParseTs(t: Record): Result<real, ParseError> {
    match FirstOf(t, "T", "time", "execTime")
    case Some(k) => MsToSec(k, t[k])
    case None => Err(UnknownField("timestamp"))
  }

  function MsToSec(key: string, v: Value): Result<real, ParseError> {
    match ToInt(v)
    case Some(ms) => Ok(ms as real / 1000.0)
    case None => Err(BadValue(key))
  }

  /** The price: `float(t[k])` for the first of p, price, execPrice. */
  function ParsePrice(t: Record): Result<real, ParseError> {
    match FirstOf(t, "p", "price", "execPrice")
    case Some(k) => FloatOf(k, t[k])
    case None => Err(UnknownField("price"))
  }

  /** The volume: `float(t[k])` for the first of v, size, execQty. */
  function ParseVol(t: Record): Result<real, ParseError> {
    match FirstOf(t, "v", "size", "execQty")
    case Some(k) => FloatOf(k, t[k])
    case None => Err(UnknownField("volume"))
  }

  function FloatOf(key: string, v: Value): Result<real, ParseError> {
    match ToFloat(v)
    case Some(x) => Ok(x)
    case None => Err(BadValue(key))
  }

  /** The side: `S` is "B" only for exactly "Buy"; `side` is "B" iff upper-cased it is "BUY"; `isBuyerMaker` true is "S". */
  function ParseSide(t: Record): Result<string, ParseError> {
    match FirstOf(t, "S", "side", "isBuyerMaker")
    case Some(k) => SideOf(k, t[k])
    case None => Err(UnknownField("side"))
  }

  function SideOf(key: string, v: Value): Result<string, ParseError> {
    if key == "S" then Ok(if v == VStr("Buy") then "B" else "S")
    else if key == "side" then
      match v
      case VStr(s) => Ok(if Upper(s) == "BUY" then "B" else "S")
      case _ => Err(BadValue("side"))
    else Ok(if Truthy(v) then "S" else "B")
  }

  /** `parse_trade(t)`: timestamp, then price, then volume, then side; the first error raised wins. */
  function ParseTrade(t: Record): Result<Trade, ParseError> {
    match ParseTs(t)
    case Err(e) => Err(e)
    case Ok(ts) =>
      match ParsePrice(t)
      case Err(e) => Err(e)
      case Ok(price) =>
        match ParseVol(t)
        case Err(e) => Err(e)
        case Ok(vol) =>
          match ParseSide(t)
          case Err(e) => Err(e)
          case Ok(side) => Ok(Trade(ts, price, vol, side))
  }

  // ---------------------------------------------------------------------------
  // Properties

  /** The first present key: the earlier key wins whenever it is present, whatever else is. */
  lemma FirstOfSpec(t: Record, k1: string, k2: string, k3: string)
    ensures FirstOf(t, k1, k2, k3) == Some(k1) <==> k1 in t
    ensures k1 != k2 ==> (FirstOf(t, k1, k2, k3) == Some(k2) <==> k1 !in t && k2 in t)
    ensures k1 != k3 && k2 != k3 ==> (FirstOf(t, k1, k2, k3) == Some(k3) <==> k1 !in t && k2 !in t && k3 in t)
    ensures FirstOf(t, k1, k2, k3).None? <==> k1 !in t && k2 !in t && k3 !in t
  {
  }

  /** Two records agree on a key: both lack it, or both hold the same value. */
  predicate AgreeOn(t: Record, u: Record, k: string) {
    (k in t <==> k in u) && (k in t ==> t[k] == u[k])
  }

  /** A parse reads only the twelve field keys: records that agree on them parse the same. */
  lemma ParseIsLocal(t: Record, u: Record)
    requires AgreeOn(t, u, "T") && AgreeOn(t, u, "time") && AgreeOn(t, u, "execTime")
    requires AgreeOn(t, u, "p") && AgreeOn(t, u, "price") && AgreeOn(t, u, "execPrice")
    requires AgreeOn(t, u, "v") && AgreeOn(t, u, "size") && AgreeOn(t, u, "execQty")
    requires AgreeOn(t, u, "S") && AgreeOn(t, u, "side") && AgreeOn(t, u, "isBuyerMaker")
    ensures ParseTrade(t) == ParseTrade(u)
  {
    assert ParseTs(t) == ParseTs(u);
    assert ParsePrice(t) == ParsePrice(u);
    assert ParseVol(t) == ParseVol(u);
    assert ParseSide(t) == ParseSide(u);
  }

  /** With T present the parse ignores time and execTime. */
  lemma TsKeyWins(t: Record)
    requires "T" in t
    ensures ParseTrade(t) == ParseTrade(t - {"time", "execTime"})
  {
    var u := t - {"time", "execTime"};
    assert ParseTs(t) == ParseTs(u);
    assert AgreeOn(t, u, "p") && AgreeOn(t, u, "price") && AgreeOn(t, u, "execPrice");
    assert AgreeOn(t, u, "v") && AgreeOn(t, u, "size") && AgreeOn(t, u, "execQty");
    assert AgreeOn(t, u, "S") && AgreeOn(t, u, "side") && AgreeOn(t, u, "isBuyerMaker");
    assert ParsePrice(t) == ParsePrice(u) && ParseVol(t) == ParseVol(u) && ParseSide(t) == ParseSide(u);
  }

  /** With p present the parse ignores price and execPrice. */
  lemma PriceKeyWins(t: Record)
    requires "p" in t
    ensures ParseTrade(t) == ParseTrade(t - {"price", "execPrice"})
  {
    var u := t - {"price", "execPrice"};
    assert ParsePrice(t) == ParsePrice(u);
    assert AgreeOn(t, u, "T") && AgreeOn(t, u, "time") && AgreeOn(t, u, "execTime");
    assert AgreeOn(t, u, "v") && AgreeOn(t, u, "size") && AgreeOn(t, u, "execQty");
    assert AgreeOn(t, u, "S") && AgreeOn(t, u, "side") && AgreeOn(t, u, "isBuyerMaker");
    assert ParseTs(t) == ParseTs(u) && ParseVol(t) == ParseVol(u) && ParseSide(t) == ParseSide(u);
  }

  /** With v present the parse ignores size and execQty. */
  lemma VolKeyWins(t: Record)
    requires "v" in t
    ensures ParseTrade(t) == ParseTrade(t - {"size", "execQty"})
  {
    var u := t - {"size", "execQty"};
    assert ParseVol(t) == ParseVol(u);
    assert AgreeOn(t, u, "T") && AgreeOn(t, u, "time") && AgreeOn(t, u, "execTime");
    assert AgreeOn(t, u, "p") && AgreeOn(t, u, "price") && AgreeOn(t, u, "execPrice");
    assert AgreeOn(t, u, "S") && AgreeOn(t, u, "side") && AgreeOn(t, u, "isBuyerMaker");
    assert ParseTs(t) == ParseTs(u) && ParsePrice(t) == ParsePrice(u) && ParseSide(t) == ParseSide(u);
  }

  /** With S present the parse ignores side and isBuyerMaker. */
  lemma SideKeyWins(t: Record)
    requires "S" in t
    ensures ParseTrade(t) == ParseTrade(t - {"side", "isBuyerMaker"})
  {
    var u := t - {"side", "isBuyerMaker"};
    assert ParseSide(t) == ParseSide(u);
    assert AgreeOn(t, u, "T") && AgreeOn(t, u, "time") && AgreeOn(t, u, "execTime");
    assert AgreeOn(t, u, "p") && AgreeOn(t, u, "price") && AgreeOn(t, u, "execPrice");
    assert AgreeOn(t, u, "v") && AgreeOn(t, u, "size") && AgreeOn(t, u, "execQty");
    assert ParseTs(t) == ParseTs(u) && ParsePrice(t) == ParsePrice(u) && ParseVol(t) == ParseVol(u);
  }

  /**
   * A family with none of its keys present raises its own "Unknown ... field" error, once the
   * families checked before it have parsed; the timestamp family is checked first.
   */
  lemma MissingFamilyErrors(t: Record)
    ensures "T" !in t && "time" !in t && "execTime" !in t ==> ParseTrade(t) == Err(UnknownField("timestamp"))
    ensures ParseTs(t).Ok? && "p" !in t && "price" !in t && "execPrice" !in t ==>
      ParseTrade(t) == Err(UnknownField("price"))
    ensures ParseTs(t).Ok? && ParsePrice(t).Ok? && "v" !in t && "size" !in t && "execQty" !in t ==>
      ParseTrade(t) == Err(UnknownField("volume"))
    ensures ParseTs(t).Ok? && ParsePrice(t).Ok? && ParseVol(t).Ok? && "S" !in t && "side" !in t && "isBuyerMaker" !in t ==>
      ParseTrade(t) == Err(UnknownField("side"))
  {
  }

  /** A parsed trade holds the four parsed fields in order, and its side is "B" or "S". */
  lemma ParsedFields(t: Record)
    requires ParseTrade(t).Ok?
    ensures var r := ParseTrade(t).value;
      && ParseTs(t) == Ok(r.ts) && ParsePrice(t) == Ok(r.price) && ParseVol(t) == Ok(r.vol) && ParseSide(t) == Ok(r.side)
      && (r.side == "B" || r.side == "S")
  {
  }

  /**
   * The side mapping: under `S` a buy is exactly the string "Buy"; under `side` any casing of
   * "buy"; under `isBuyerMaker` a falsy maker flag (the taker bought).
   */
  lemma SideMapping(t: Record)
    requires ParseSide(t).Ok?
    ensures "S" in t ==> (ParseSide(t).value == "B" <==> t["S"] == VStr("Buy"))
    ensures "S" !in t && "side" in t ==>
      t["side"].VStr? && (ParseSide(t).value == "B" <==> IsBuyWord(t["side"].s))
    ensures "S" !in t && "side" !in t ==> "isBuyerMaker" in t && (ParseSide(t).value == "B" <==> !Truthy(t["isBuyerMaker"]))
  {
    if "S" !in t && "side" in t && t["side"].VStr? {
      UpperBuy(t["side"].s);
    }
  }

  /**
   * Lists and objects: `int()` and `float()` reject them, `.upper()` does not exist on them,
   * `== "Buy"` is false for them, and as a maker flag they count by emptiness.
   */
  lemma ContainerValues(t: Record)
    ensures "T" in t && (t["T"].VList? || t["T"].VObj?) ==> ParseTrade(t) == Err(BadValue("T"))
    ensures ParseTs(t).Ok? && "p" in t && (t["p"].VList? || t["p"].VObj?) ==> ParseTrade(t) == Err(BadValue("p"))
    ensures "S" in t && (t["S"].VList? || t["S"].VObj?) ==> ParseSide(t) == Ok("S")
    ensures "S" !in t && "side" in t && (t["side"].VList? || t["side"].VObj?) ==> ParseSide(t) == Err(BadValue("side"))
    ensures "S" !in t && "side" !in t && "isBuyerMaker" in t && t["isBuyerMaker"].VList? ==>
      ParseSide(t) == Ok(if t["isBuyerMaker"].items == [] then "B" else "S")
  {
  }

  /** One of the eight casings of "buy". */
  predicate IsBuyWord(s: string) {
    && |s| == 3
    && (s[0] == 'b' || s[0] == 'B') && (s[1] == 'u' || s[1] == 'U') && (s[2] == 'y' || s[2] == 'Y')
  }

  /** Upper-casing is "BUY" exactly for the casings of "buy". */
  lemma UpperBuy(s: string)
    ensures Upper(s) == "BUY" <==> IsBuyWord(s)
  {
    if |s| == 3 {
      var u := Upper(s);
      assert u == "BUY" <==> u[0] == 'B' && u[1] == 'U' && u[2] == 'Y';
    }
  }

  // ---------------------------------------------------------------------------
  // Digit strings

  /** The decimal digits of `n`, most significant first. */
  function NatDigits(n: nat): (s: string)
    ensures AllDigits(s) && s != []
  {
    if n < 10 then [('0' as int + n) as char]
    else NatDigits(n / 10) + [('0' as int + n % 10) as char]
  }

  /** `int()` reads back what the digits spell: a round trip for every non-negative integer. */
  lemma {:induction false} DigitsRoundTrip(n: nat)
    ensures DigitsValue(NatDigits(n)) == n
    decreases n
  {
    if n >= 10 {
      var s := NatDigits(n);
      assert s[..|s| - 1] == NatDigits(n / 10);
      DigitsRoundTrip(n / 10);
    }
  }

  /** A millisecond timestamp written as a digit string parses to the same seconds as the integer. */
  lemma MsStringAgrees(ms: nat)
    ensures ToInt(VStr(NatDigits(ms))) == ToInt(VInt(ms)) == Some(ms)
  {
    DigitsRoundTrip(ms);
    var s := NatDigits(ms);
    assert s[0] != '-' && s[0] != '+';
  }
}

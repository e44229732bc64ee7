/** The text line `node_read` prints for one event, in the notation of C's printf. */
module EventLine {
  import opened ConveyorTypes
  import opened Powers

  function DigitChar(d: nat): char
    requires d < 16
  {
    if d < 10 then ('0' as int + d) as char else ('a' as int + d - 10) as char
  }

  /** `%llu` and `%x`. */
  function Digits(n: nat, base: nat): string
    requires base == 10 || base == 16
  {
    if n < base then [DigitChar(n)] else Digits(n / base, base) + [DigitChar(n % base)]
  }

  /** `%d`. */
  function Signed(n: int): string {
    if n < 0 then "-" + Digits(-n, 10) else Digits(n, 10)
  }

  function StateName(s: ConvState): string {
    match s
    case RunningOk => "RUNNING_OK"
    case BlockageAlert => "BLOCKAGE_ALERT"
    case StructuralFault => "STRUCTURAL_FAULT"
    case CriticalFault => "CRITICAL_FAULT"
  }

  function TiltName(t: Tilt): string { if t == Tilted then "TILTED" else "LEVEL" }

  function BlockageName(b: Blockage): string { if b == Blocked then "BLOCKED" else "CLEAR" }

  /** Key and value text, in the order of the format string. */
  function Fields(e: Event): (fs: seq<(string, string)>)
    requires e.Fits()
    ensures |fs| == 7
  {
    [("ts", Digits(e.tsNs, 10)), ("state", StateName(e.state)), ("tilt", TiltName(e.tilt)),
     ("blockage", BlockageName(e.blockage)), ("distance_cm", Signed(e.distanceCm)),
     ("light", Signed(e.lightValue)), ("reason", "0x" + Digits(e.reason, 16))]
  }

  function Token(f: (string, string)): string { f.0 + "=" + f.1 }

  function Tokens(fs: seq<(string, string)>): (ts: seq<string>)
    ensures |ts| == |fs| && forall i :: 0 <= i < |fs| ==> ts[i] == Token(fs[i])
  {
    if fs == [] then [] else [Token(fs[0])] + Tokens(fs[1..])
  }

  function Join(tokens: seq<string>): string
    requires tokens != []
  {
    if |tokens| == 1 then tokens[0] + "\n" else tokens[0] + " " + Join(tokens[1..])
  }

  function FormatLine(e: Event): string
    requires e.Fits()
  {
    Join(Tokens(Fields(e)))
  }

  /** `scnprintf` keeps what fits before the terminating zero. */
  function Scnprintf(size: nat, text: string): string
    requires size > 0
  {
    if |text| < size then text else text[..size - 1]
  }

  lemma DivMul(n: nat, b: nat, q: nat)
    requires b > 0 && n / b >= q
    ensures n >= b * q
  {
  }

  lemma {:induction false} DigitsLength(n: nat, base: nat, k: nat)
    requires (base == 10 || base == 16) && 1 <= k && n < Pow(base, k)
    ensures 1 <= |Digits(n, base)| <= k
  {
    if n >= base {
      assert k > 1;
      assert n / base < Pow(base, k - 1) by {
        if n / base >= Pow(base, k - 1) { DivMul(n, base, Pow(base, k - 1)); }
      }
      DigitsLength(n / base, base, k - 1);
    }
  }

  function TotalLength(tokens: seq<string>): nat {
    if tokens == [] then 0 else |tokens[0]| + TotalLength(tokens[1..])
  }

  lemma {:induction false} JoinLength(tokens: seq<string>)
    requires tokens != []
    ensures |Join(tokens)| == TotalLength(tokens) + |tokens|
  {
    if |tokens| > 1 {
      JoinLength(tokens[1..]);
    }
  }

  function Sum(ns: seq<nat>): nat {
    if ns == [] then 0 else ns[0] + Sum(ns[1..])
  }

  lemma {:induction false} TotalBound(tokens: seq<string>, bounds: seq<nat>)
    requires |tokens| == |bounds| && forall i :: 0 <= i < |tokens| ==> |tokens[i]| <= bounds[i]
    ensures TotalLength(tokens) <= Sum(bounds)
  {
    if tokens != [] {
      TotalBound(tokens[1..], bounds[1..]);
    }
  }

  /** The longest token of each field. */
  const BOUNDS: seq<nat> := [23, 22, 11, 16, 23, 17, 17]

  lemma SignedLength(n: int)
    requires -0x8000_0000 <= n < 0x8000_0000
    ensures |Signed(n)| <= 11
  {
    assert Pow(10, 10) == 10000000000;
    DigitsLength(if n < 0 then -n else n, 10, 10);
  }

  lemma TokenBound(e: Event, k: nat)
    requires e.Fits() && k < 7
    ensures |Token(Fields(e)[k])| <= BOUNDS[k]
  {
    if k == 0 {
      assert Pow(10, 10) == 10000000000;
      PowAdd(10, 10, 10);
      DigitsLength(e.tsNs, 10, 20);
    } else if k == 4 {
      SignedLength(e.distanceCm);
    } else if k == 5 {
      SignedLength(e.lightValue);
    } else if k == 6 {
      assert Pow(16, 8) == U32;
      DigitsLength(e.reason, 16, 8);
    }
  }

  const LINE_SIZE := 192
  const MONITOR_COUNT := 255

  /** A line has at most 136 characters, so neither the driver's buffer nor the monitor's read cuts it. */
  lemma LineFits(e: Event)
    requires e.Fits()
    ensures 0 < |FormatLine(e)| <= 136 < LINE_SIZE <= MONITOR_COUNT
    ensures Scnprintf(LINE_SIZE, FormatLine(e)) == FormatLine(e)
  {
    var ts := Tokens(Fields(e));
    forall k | 0 <= k < 7 ensures |ts[k]| <= BOUNDS[k] {
      TokenBound(e, k);
    }
    TotalBound(ts, BOUNDS);
    assert Sum(BOUNDS) == 129;
    JoinLength(ts);
  }
}

/** `parse_event` of the daemon: whitespace tokens, `key=value`, integers where Python's `int` accepts them. */
module EventParser {
  import opened ConveyorTypes
  import opened EventLine

  datatype Value = IntV(i: int) | StrV(s: string) | TimeV(t: real)

  datatype Result<+T> = Ok(value: T) | ValueError

  /** What `str.split` and `str.strip` treat as whitespace. */
  predicate IsSpace(c: char) {
    var u := c as int;
    9 <= u <= 13 || 28 <= u <= 32 || u == 0x85 || u == 0xA0 || u == 0x1680 || 0x2000 <= u <= 0x200A
    || u == 0x2028 || u == 0x2029 || u == 0x202F || u == 0x205F || u == 0x3000
  }

  function Word(s: string): (w: string)
    ensures |w| <= |s|
    ensures s != [] && !IsSpace(s[0]) ==> w != []
  {
    if s == [] || IsSpace(s[0]) then [] else [s[0]] + Word(s[1..])
  }

  function Split(s: string): seq<string>
    decreases |s|
  {
    if s == [] then []
    else if IsSpace(s[0]) then Split(s[1..])
    else [Word(s)] + Split(s[|Word(s)|..])
  }

  function Strip(s: string): string
    decreases |s|
  {
    if s == [] then []
    else if IsSpace(s[0]) then Strip(s[1..])
    else if IsSpace(s[|s| - 1]) then Strip(s[..|s| - 1])
    else s
  }

  function DigitValue(c: char): nat {
    if '0' <= c <= '9' then c as int - '0' as int
    else if 'a' <= c <= 'z' then c as int - 'a' as int + 10
    else if 'A' <= c <= 'Z' then c as int - 'A' as int + 10
    else 36
  }

  /** Digits with single underscores between them; `prev` tells whether a digit came just before. */
  function ScanDigits(s: string, base: nat, acc: nat, prev: bool): Option<nat> {
    if s == [] then (if prev then Some(acc) else None)
    else if s[0] == '_' then (if prev then ScanDigits(s[1..], base, acc, false) else None)
    else if DigitValue(s[0]) < base then ScanDigits(s[1..], base, acc * base + DigitValue(s[0]), true)
    else None
  }

  /** `int(v)` on a token. */
  function ParseInt(v: string): Option<int> {
    if v != [] && (v[0] == '-' || v[0] == '+') then
      match ScanDigits(v[1..], 10, 0, false)
      case None => None
      case Some(n) =>
        var i: int := if v[0] == '-' then 0 - n else n;
        Some(i)
    else ScanDigits(v, 10, 0, false)
  }

  /** `int(v, 16)` on a token that starts with `0x`: one underscore may follow the prefix. */
  function ParseHex(v: string): Option<nat>
    requires "0x" <= v
  {
    ScanDigits(if |v| > 2 && v[2] == '_' then v[3..] else v[2..], 16, 0, false)
  }

  function ParseValue(v: string): Result<Value> {
    if "0x" <= v then
      match ParseHex(v) case None => ValueError case Some(n) => Ok(IntV(n))
    else
      match ParseInt(v) case None => Ok(StrV(v)) case Some(n) => Ok(IntV(n))
  }

  /** The characters before the first `=`. */
  function Key(token: string): string {
    if token == [] || token[0] == '=' then [] else [token[0]] + Key(token[1..])
  }

  lemma {:induction false} KeyLength(token: string)
    requires '=' in token
    ensures |Key(token)| < |token| && token == Key(token) + "=" + token[|Key(token)| + 1..]
  {
    if token[0] != '=' {
      KeyLength(token[1..]);
    }
  }

  function ParseTokens(tokens: seq<string>, event: map<string, Value>): Result<map<string, Value>> {
    if tokens == [] then Ok(event)
    else if '=' !in tokens[0] then ValueError
    else
      KeyLength(tokens[0]);
      match ParseValue(tokens[0][|Key(tokens[0])| + 1..])
      case ValueError => ValueError
      case Ok(v) => ParseTokens(tokens[1..], event[Key(tokens[0]) := v])
  }

  function WithSource(r: Result<map<string, Value>>, createdAt: real): Result<map<string, Value>> {
    match r
    case ValueError => ValueError
    case Ok(event) => Ok(event["source" := StrV("conveyor_node")]["created_at" := TimeV(createdAt)])
  }

  method ParseEvent(line: string, createdAt: real) returns (r: Result<map<string, Value>>)
    ensures r == WithSource(ParseTokens(Split(Strip(line)), map[]), createdAt)
  {
    var tokens := Split(Strip(line));
    var event: map<string, Value> := map[];
    for i := 0 to |tokens|
      invariant ParseTokens(tokens, map[]) == ParseTokens(tokens[i..], event)
    {
      var token := tokens[i];
      assert tokens[i..][1..] == tokens[i + 1..];
      if '=' !in token {
        return ValueError;
      }
      KeyLength(token);
      var v := ParseValue(token[|Key(token)| + 1..]);
      if v.ValueError? {
        return ValueError;
      }
      event := event[Key(token) := v.value];
    }
    r := Ok(event["source" := StrV("conveyor_node")]["created_at" := TimeV(createdAt)]);
  }

  // ------------------------------------------------------------- round trip

  ghost predicate Solid(token: string) {
    token != [] && forall i :: 0 <= i < |token| ==> !IsSpace(token[i])
  }

  lemma TailOfConcat(a: string, b: string)
    requires a != []
    ensures (a + b)[0] == a[0] && (a + b)[1..] == a[1..] + b
  {
  }

  lemma {:induction false} WordOf(token: string, rest: string)
    requires forall i :: 0 <= i < |token| ==> !IsSpace(token[i])
    requires rest == [] || IsSpace(rest[0])
    ensures Word(token + rest) == token && (token + rest)[|token|..] == rest
  {
    if token == [] {
      assert token + rest == rest;
    } else {
      TailOfConcat(token, rest);
      WordOf(token[1..], rest);
    }
  }

  lemma SplitToken(token: string, rest: string)
    requires Solid(token) && (rest == [] || IsSpace(rest[0]))
    ensures Split(token + rest) == [token] + Split(rest)
  {
    WordOf(token, rest);
  }

  lemma {:induction false} SplitJoin(tokens: seq<string>)
    requires tokens != [] && forall i :: 0 <= i < |tokens| ==> Solid(tokens[i])
    ensures Split(Join(tokens)) == tokens
  {
    if |tokens| == 1 {
      SplitToken(tokens[0], "\n");
      assert Split("\n") == Split("\n"[1..]) == [];
    } else {
      var rest := Join(tokens[1..]);
      SplitJoin(tokens[1..]);
      SplitToken(tokens[0], " " + rest);
      assert Join(tokens) == tokens[0] + (" " + rest);
      assert (" " + rest)[1..] == rest;
      assert Split(" " + rest) == Split(rest);
    }
  }

  lemma SliceOfSlice(s: string, w: nat)
    requires w < |s|
    ensures s[w..][..|s| - w - 1] == s[..|s| - 1][w..] && |s[w..]| == |s| - w && s[w..][|s| - w - 1] == s[|s| - 1]
  {
  }

  /** Both strings begin with the same word, and then whitespace or nothing. */
  lemma SplitAtWord(s: string, t: string, w: nat)
    requires w <= |t| <= |s| && t[..w] == s[..w] && Solid(s[..w])
    requires w < |s| ==> IsSpace(s[w])
    requires w < |t| ==> IsSpace(t[w])
    ensures Split(s) == [s[..w]] + Split(s[w..]) && Split(t) == [s[..w]] + Split(t[w..])
  {
    SplitToken(s[..w], s[w..]);
    SplitToken(s[..w], t[w..]);
    assert s == s[..w] + s[w..];
    assert t == s[..w] + t[w..];
  }

  lemma {:induction false} WordPrefix(s: string)
    ensures var w := |Word(s)|; w <= |s| && Word(s) == s[..w] && (w < |s| ==> IsSpace(s[w]))
    ensures forall i :: 0 <= i < |Word(s)| ==> !IsSpace(s[i])
  {
    if s != [] && !IsSpace(s[0]) {
      WordPrefix(s[1..]);
    }
  }

  /** Splitting ignores whitespace at the end. */
  lemma {:induction false} SplitDropsLast(s: string)
    requires s != [] && IsSpace(s[|s| - 1])
    ensures Split(s[..|s| - 1]) == Split(s)
    decreases |s|
  {
    if |s| == 1 {
      assert s[..0] == [] && Split(s) == Split(s[1..]) == [];
    } else if IsSpace(s[0]) {
      SliceOfSlice(s, 1);
      SplitDropsLast(s[1..]);
      assert Split(s) == Split(s[1..]) && Split(s[..|s| - 1]) == Split(s[..|s| - 1][1..]);
    } else {
      WordPrefix(s);
      SliceOfSlice(s, |Word(s)|);
      SplitDropsLast(s[|Word(s)|..]);
      SplitAtWord(s, s[..|s| - 1], |Word(s)|);
    }
  }

  lemma {:induction false} StripIsRedundant(s: string)
    ensures Split(Strip(s)) == Split(s)
    decreases |s|
  {
    if s != [] {
      if IsSpace(s[0]) {
        StripIsRedundant(s[1..]);
      } else if IsSpace(s[|s| - 1]) {
        StripIsRedundant(s[..|s| - 1]);
        SplitDropsLast(s);
      }
    }
  }

  lemma {:induction false} ScanSnoc(s: string, base: nat, acc: nat, prev: bool, c: char)
    requires c != '_' && DigitValue(c) < base
    ensures ScanDigits(s, base, acc, prev).Some? ==>
              ScanDigits(s + [c], base, acc, prev) == Some(ScanDigits(s, base, acc, prev).value * base + DigitValue(c))
  {
    if s != [] {
      assert (s + [c])[1..] == s[1..] + [c];
      if s[0] == '_' {
        ScanSnoc(s[1..], base, acc, false, c);
      } else if DigitValue(s[0]) < base {
        ScanSnoc(s[1..], base, acc * base + DigitValue(s[0]), true, c);
      }
    }
  }

  lemma DigitChars(d: nat)
    requires d < 16
    ensures DigitValue(DigitChar(d)) == d
  {
  }

  lemma {:induction false} DigitsScan(n: nat, base: nat)
    requires base == 10 || base == 16
    ensures ScanDigits(Digits(n, base), base, 0, false) == Some(n)
    ensures forall i :: 0 <= i < |Digits(n, base)| ==> DigitValue(Digits(n, base)[i]) < base
    ensures Digits(n, base) != []
  {
    DigitChars(n % base);
    if n >= base {
      DigitsScan(n / base, base);
      ScanSnoc(Digits(n / base, base), base, 0, false, DigitChar(n % base));
    }
  }

  lemma NonNegativeParses(n: nat)
    ensures ParseValue(Digits(n, 10)) == Ok(IntV(n))
  {
    DigitsScan(n, 10);
    var v := Digits(n, 10);
    assert DigitValue(v[0]) < 10;
    assert |v| > 1 ==> DigitValue(v[1]) < 10;
    assert DigitValue('x') == 33;
  }

  lemma SignedParses(n: int)
    ensures ParseValue(Signed(n)) == Ok(IntV(n))
  {
    if n < 0 {
      DigitsScan(-n, 10);
      assert Signed(n)[1..] == Digits(-n, 10);
      assert Signed(n)[0] == '-';
    } else {
      NonNegativeParses(n);
    }
  }

  lemma HexParses(n: nat)
    ensures ParseValue("0x" + Digits(n, 16)) == Ok(IntV(n))
  {
    DigitsScan(n, 16);
    var v := "0x" + Digits(n, 16);
    assert v[2..] == Digits(n, 16) && DigitValue(v[2]) < 16;
  }

  /** A letter outside a..f at the front makes `int` reject the value. */
  lemma NameParses(v: string)
    requires v != [] && 'A' <= v[0] <= 'Z'
    ensures ParseValue(v) == Ok(StrV(v))
  {
  }

  lemma {:induction false} KeyOf(key: string, v: string)
    requires '=' !in key
    ensures Key(key + "=" + v) == key && '=' in key + "=" + v && (key + "=" + v)[|key| + 1..] == v
  {
    assert (key + "=" + v)[|key|] == '=';
    if key != [] {
      KeyOf(key[1..], v);
      assert (key + "=" + v)[1..] == key[1..] + "=" + v;
    }
  }

  lemma DigitsSolid(n: nat, base: nat)
    requires base == 10 || base == 16
    ensures Solid(Digits(n, base))
  {
    DigitsScan(n, base);
    var v := Digits(n, base);
    forall i | 0 <= i < |v| ensures !IsSpace(v[i]) {
      assert DigitValue(v[i]) < 36;
    }
  }

  lemma SolidConcat(a: string, b: string)
    requires Solid(a) && Solid(b)
    ensures Solid(a + b)
  {
  }

  lemma SignedSolid(n: int)
    ensures Solid(Signed(n))
  {
    if n < 0 {
      DigitsSolid(-n, 10);
      SolidConcat("-", Digits(-n, 10));
    } else {
      DigitsSolid(n, 10);
    }
  }

  /** What each field means to a consumer. */
  function Meanings(e: Event): (vs: seq<Value>)
    ensures |vs| == 7
  {
    [IntV(e.tsNs), StrV(StateName(e.state)), StrV(TiltName(e.tilt)), StrV(BlockageName(e.blockage)),
     IntV(e.distanceCm), IntV(e.lightValue), IntV(e.reason)]
  }

  ghost predicate Reads(f: (string, string), v: Value) {
    Solid(f.0) && '=' !in f.0 && Solid(f.1) && ParseValue(f.1) == Ok(v)
  }

  lemma NumberReads(key: string, n: int)
    requires Solid(key) && '=' !in key
    ensures Reads((key, Signed(n)), IntV(n))
  {
    SignedParses(n);
    SignedSolid(n);
  }

  lemma NameReads(key: string, name: string)
    requires Solid(key) && '=' !in key
    requires Solid(name) && 'A' <= name[0] <= 'Z'
    ensures Reads((key, name), StrV(name))
  {
    NameParses(name);
  }

  lemma StateReads(s: ConvState)
    ensures Reads(("state", StateName(s)), StrV(StateName(s)))
  {
    NameReads("state", StateName(s));
  }

  lemma TiltReads(t: Tilt)
    ensures Reads(("tilt", TiltName(t)), StrV(TiltName(t)))
  {
    NameReads("tilt", TiltName(t));
  }

  lemma BlockageReads(b: Blockage)
    ensures Reads(("blockage", BlockageName(b)), StrV(BlockageName(b)))
  {
    NameReads("blockage", BlockageName(b));
  }

  lemma ReasonReads(reason: nat)
    ensures Reads(("reason", "0x" + Digits(reason, 16)), IntV(reason))
  {
    HexParses(reason);
    DigitsSolid(reason, 16);
    SolidConcat("0x", Digits(reason, 16));
  }

  lemma NameFieldReads(e: Event, k: nat)
    requires e.Fits() && 1 <= k < 4
    ensures Reads(Fields(e)[k], Meanings(e)[k])
  {
    StateReads(e.state);
    TiltReads(e.tilt);
    BlockageReads(e.blockage);
  }

  lemma NumberFieldReads(e: Event, k: nat)
    requires e.Fits() && (k == 0 || k == 4 || k == 5)
    ensures Reads(Fields(e)[k], Meanings(e)[k])
  {
    NumberReads("ts", e.tsNs);
    NumberReads("distance_cm", e.distanceCm);
    NumberReads("light", e.lightValue);
  }

  lemma FieldReads(e: Event, k: nat)
    requires e.Fits() && k < 7
    ensures Reads(Fields(e)[k], Meanings(e)[k])
  {
    if 1 <= k < 4 {
      NameFieldReads(e, k);
    } else if k == 6 {
      ReasonReads(e.reason);
    } else {
      NumberFieldReads(e, k);
    }
  }

  function Updates(fs: seq<(string, string)>, vs: seq<Value>, event: map<string, Value>): map<string, Value>
    requires |fs| == |vs|
  {
    if fs == [] then event else Updates(fs[1..], vs[1..], event[fs[0].0 := vs[0]])
  }

  lemma {:induction false} FieldsParse(fs: seq<(string, string)>, vs: seq<Value>, event: map<string, Value>)
    requires |fs| == |vs| && forall i :: 0 <= i < |fs| ==> Reads(fs[i], vs[i])
    ensures ParseTokens(Tokens(fs), event) == Ok(Updates(fs, vs, event))
    ensures forall i :: 0 <= i < |fs| ==> Solid(Tokens(fs)[i])
  {
    if fs != [] {
      FieldsParse(fs[1..], vs[1..], event[fs[0].0 := vs[0]]);
      KeyOf(fs[0].0, fs[0].1);
      SolidConcat(fs[0].0, "=");
      SolidConcat(fs[0].0 + "=", fs[0].1);
      assert Tokens(fs)[1..] == Tokens(fs[1..]);
    }
  }

  /** The dictionary a consumer of the event expects. */
  function Dictionary(e: Event): map<string, Value> {
    var state :=
      match e.state
      case RunningOk => "RUNNING_OK"
      case BlockageAlert => "BLOCKAGE_ALERT"
      case StructuralFault => "STRUCTURAL_FAULT"
      case CriticalFault => "CRITICAL_FAULT";
    var tilt := match e.tilt case Level => "LEVEL" case Tilted => "TILTED";
    var blockage := match e.blockage case Clear => "CLEAR" case Blocked => "BLOCKED";
    map["ts" := IntV(e.tsNs), "state" := StrV(state), "tilt" := StrV(tilt), "blockage" := StrV(blockage),
        "distance_cm" := IntV(e.distanceCm), "light" := IntV(e.lightValue), "reason" := IntV(e.reason)]
  }

  lemma NamesAreDictionary(e: Event)
    ensures var d := Dictionary(e);
            && d["state"] == StrV(StateName(e.state))
            && d["tilt"] == StrV(TiltName(e.tilt)) && d["blockage"] == StrV(BlockageName(e.blockage))
  {
  }

  lemma UpdatesAreDictionary(e: Event)
    requires e.Fits()
    ensures Updates(Fields(e), Meanings(e), map[]) == Dictionary(e)
  {
    var fs, vs := Fields(e), Meanings(e);
    NamesAreDictionary(e);
    var m0: map<string, Value> := map[];
    var m1 := m0["ts" := vs[0]];
    var m2 := m1["state" := vs[1]];
    var m3 := m2["tilt" := vs[2]];
    var m4 := m3["blockage" := vs[3]];
    var m5 := m4["distance_cm" := vs[4]];
    var m6 := m5["light" := vs[5]];
    assert Updates(fs, vs, m0) == Updates(fs[1..], vs[1..], m1);
    assert Updates(fs[1..], vs[1..], m1) == Updates(fs[2..], vs[2..], m2);
    assert Updates(fs[2..], vs[2..], m2) == Updates(fs[3..], vs[3..], m3);
    assert Updates(fs[3..], vs[3..], m3) == Updates(fs[4..], vs[4..], m4);
    assert Updates(fs[4..], vs[4..], m4) == Updates(fs[5..], vs[5..], m5);
    assert Updates(fs[5..], vs[5..], m5) == Updates(fs[6..], vs[6..], m6);
    assert Updates(fs[6..], vs[6..], m6) == m6["reason" := vs[6]];
  }

  /** The daemon reads back, from the line the driver printed, every field of the event. */
  lemma LineRoundTrip(e: Event, createdAt: real)
    requires e.Fits()
    ensures WithSource(ParseTokens(Split(Strip(Scnprintf(LINE_SIZE, FormatLine(e)))), map[]), createdAt)
         == Ok(Dictionary(e)["source" := StrV("conveyor_node")]["created_at" := TimeV(createdAt)])
  {
    LineFits(e);
    forall k | 0 <= k < 7 ensures Reads(Fields(e)[k], Meanings(e)[k]) {
      FieldReads(e, k);
    }
    FieldsParse(Fields(e), Meanings(e), map[]);
    SplitJoin(Tokens(Fields(e)));
    StripIsRedundant(FormatLine(e));
    UpdatesAreDictionary(e);
  }

  /** The dictionary determines the event: no two events print lines that parse alike. */
  lemma DictionaryInjective(a: Event, b: Event)
    requires Dictionary(a) == Dictionary(b)
    ensures a == b
  {
    var d := Dictionary(a);
    NamesAreDictionary(a);
    NamesAreDictionary(b);
    assert d["ts"] == IntV(a.tsNs) == IntV(b.tsNs);
    assert d["state"] == StrV(StateName(a.state)) == StrV(StateName(b.state));
    assert d["tilt"] == StrV(TiltName(a.tilt)) == StrV(TiltName(b.tilt));
    assert d["blockage"] == StrV(BlockageName(a.blockage)) == StrV(BlockageName(b.blockage));
    assert d["distance_cm"] == IntV(a.distanceCm) == IntV(b.distanceCm);
    assert d["light"] == IntV(a.lightValue) == IntV(b.lightValue);
    assert d["reason"] == IntV(a.reason) == IntV(b.reason);
    assert |StateName(a.state)| == |StateName(b.state)| && StateName(a.state)[0] == StateName(b.state)[0];
    assert |TiltName(a.tilt)| == |TiltName(b.tilt)|;
    assert |BlockageName(a.blockage)| == |BlockageName(b.blockage)|;
  }

  lemma {:induction false} JoinEndsOnce(tokens: seq<string>)
    requires tokens != [] && forall i :: 0 <= i < |tokens| ==> Solid(tokens[i])
    ensures var line := Join(tokens);
            line != [] && line[|line| - 1] == '\n' && '\n' !in line[..|line| - 1]
  {
    if |tokens| == 1 {
      assert Join(tokens)[..|tokens[0]|] == tokens[0];
    } else {
      var rest := Join(tokens[1..]);
      JoinEndsOnce(tokens[1..]);
      var line := Join(tokens);
      assert line == tokens[0] + " " + rest;
      assert line[..|line| - 1] == tokens[0] + " " + rest[..|rest| - 1];
    }
  }

  const KEYS: seq<string> := ["ts", "state", "tilt", "blockage", "distance_cm", "light", "reason"]

  lemma FieldKey(e: Event, k: nat)
    requires e.Fits() && k < 7
    ensures Fields(e)[k].0 == KEYS[k] && '=' !in KEYS[k]
  {
  }

  /** The line is one line, and its tokens carry the seven keys in this order. */
  lemma LineShape(e: Event)
    requires e.Fits()
    ensures var line, tokens := FormatLine(e), Split(FormatLine(e));
            && line[|line| - 1] == '\n' && '\n' !in line[..|line| - 1]
            && |tokens| == 7
            && forall k :: 0 <= k < 7 ==> '=' in tokens[k] && Key(tokens[k]) == KEYS[k]
  {
    forall k | 0 <= k < 7 ensures Reads(Fields(e)[k], Meanings(e)[k]) {
      FieldReads(e, k);
    }
    FieldsParse(Fields(e), Meanings(e), map[]);
    JoinEndsOnce(Tokens(Fields(e)));
    SplitJoin(Tokens(Fields(e)));
    forall k | 0 <= k < 7 ensures '=' in Tokens(Fields(e))[k] && Key(Tokens(Fields(e))[k]) == KEYS[k] {
      FieldKey(e, k);
      KeyOf(KEYS[k], Fields(e)[k].1);
    }
  }

  // ---------------------------------------------- what any list of tokens means

  /** The value behind the first `=`. */
  function ValueOf(token: string): Result<Value>
    requires '=' in token
  {
    KeyLength(token);
    ParseValue(token[|Key(token)| + 1..])
  }

  /** A token that `parse_event` cannot take. */
  predicate Bad(token: string) {
    '=' !in token || ValueOf(token).ValueError?
  }

  /** The position of the last token with this key, or -1. */
  function LastWith(tokens: seq<string>, key: string): (i: int)
    ensures -1 <= i < |tokens|
    ensures 0 <= i ==> Key(tokens[i]) == key
    ensures forall j :: i < j < |tokens| ==> Key(tokens[j]) != key
  {
    if tokens == [] then -1
    else if Key(tokens[|tokens| - 1]) == key then |tokens| - 1
    else LastWith(tokens[..|tokens| - 1], key)
  }

  lemma {:induction false} ParseSnoc(tokens: seq<string>, token: string, event: map<string, Value>)
    ensures ParseTokens(tokens + [token], event) ==
              match ParseTokens(tokens, event)
              case ValueError => ValueError
              case Ok(d) => if Bad(token) then ValueError else Ok(d[Key(token) := ValueOf(token).value])
  {
    if tokens == [] {
      assert (tokens + [token])[1..] == [];
    } else {
      assert (tokens + [token])[1..] == tokens[1..] + [token];
      if !Bad(tokens[0]) {
        ParseSnoc(tokens[1..], token, event[Key(tokens[0]) := ValueOf(tokens[0]).value]);
      }
    }
  }

  /** Parsing fails exactly on a bad token; otherwise each key has the value of the last token that carries it. */
  lemma {:induction false} TokensMeanTheirLast(tokens: seq<string>)
    ensures ParseTokens(tokens, map[]).ValueError? <==> exists i :: 0 <= i < |tokens| && Bad(tokens[i])
    ensures ParseTokens(tokens, map[]).Ok? ==>
              forall key :: var i := LastWith(tokens, key);
                var d := ParseTokens(tokens, map[]).value;
                (key in d <==> 0 <= i) && (0 <= i ==> !Bad(tokens[i]) && d[key] == ValueOf(tokens[i]).value)
  {
    if tokens != [] {
      var init, token := tokens[..|tokens| - 1], tokens[|tokens| - 1];
      assert tokens == init + [token];
      TokensMeanTheirLast(init);
      ParseSnoc(init, token, map[]);
      if exists i :: 0 <= i < |init| && Bad(init[i]) {
        var i :| 0 <= i < |init| && Bad(init[i]);
        assert Bad(tokens[i]);
      }
    }
  }

  /** Printable ASCII, without the blank. */
  predicate Printable(s: string) {
    s != [] && forall i :: 0 <= i < |s| ==> '!' <= s[i] <= '~'
  }

  /** The ASCII characters that separate tokens: tab to carriage return, the four separators, and the blank. */
  lemma AsciiSpacesSeparate(a: string, c: char, b: string)
    requires Printable(a) && Printable(b)
    requires 9 <= c as int <= 13 || 28 <= c as int <= 32
    ensures Split(a + [c] + b) == [a, b] && Split(Strip([c] + a + [c])) == [a]
  {
    var tail := [c] + b;
    assert a + [c] + b == a + tail && tail[1..] == b;
    SplitToken(a, tail);
    assert b + [] == b && Split(tail) == Split(b);
    SplitToken(b, []);
    StripIsRedundant([c] + a + [c]);
    assert [c] + a + [c] == [c] + (a + [c]) && ([c] + (a + [c]))[1..] == a + [c];
    SplitToken(a, [c]);
    assert Split([c]) == Split([c][1..]) == [];
  }

  lemma {:induction false} ScanRejects(s: string, base: nat, acc: nat, prev: bool, i: nat)
    requires i < |s| && s[i] != '_' && base <= DigitValue(s[i])
    ensures ScanDigits(s, base, acc, prev) == None
  {
    if 0 < i {
      assert s[1..][i - 1] == s[i] && s != [];
      if s[0] == '_' {
        ScanRejects(s[1..], base, acc, false, i - 1);
      } else if DigitValue(s[0]) < base {
        ScanRejects(s[1..], base, acc * base + DigitValue(s[0]), true, i - 1);
      }
    }
  }

  /** A value with a character of no decimal number stays a string; behind `0x` one of no hex number fails. */
  lemma OtherValuesStay(v: string, i: nat)
    requires i < |v| && v[i] != '_'
    ensures !("0x" <= v) && 10 <= DigitValue(v[i]) && (0 < i || v[0] !in "+-") ==> ParseValue(v) == Ok(StrV(v))
    ensures "0x" <= v && 2 <= i && 16 <= DigitValue(v[i]) ==> ParseValue(v) == ValueError
  {
    if "0x" <= v && 2 <= i && 16 <= DigitValue(v[i]) {
      if v[2] == '_' {
        ScanRejects(v[3..], 16, 0, false, i - 3);
      } else {
        ScanRejects(v[2..], 16, 0, false, i - 2);
      }
    } else if !("0x" <= v) && 10 <= DigitValue(v[i]) && (0 < i || v[0] !in "+-") {
      if v[0] in "+-" {
        ScanRejects(v[1..], 10, 0, false, i - 1);
      } else {
        ScanRejects(v, 10, 0, false, i);
      }
    }
  }

  lemma DigitScans(c: char, base: nat, acc: nat)
    requires c != '_' && DigitValue(c) < base
    ensures ScanDigits([c], base, acc, false) == Some(acc * base + DigitValue(c))
  {
    assert [c][1..] == [];
  }

  /** Signs and underscores where Python's `int` takes them, and where it does not. */
  lemma NumeralForms()
    ensures ParseValue("0x_f") == Ok(IntV(15)) && ParseValue("0x") == ValueError
    ensures ParseValue("+5") == Ok(IntV(5)) && ParseValue("1_0") == Ok(IntV(10))
    ensures ParseValue("1_") == Ok(StrV("1_")) && ParseValue("--1") == Ok(StrV("--1"))
  {
    assert "0x_f"[3..] == "f" && "0x"[2..] == [] && "+5"[1..] == "5" && "--1"[1..] == "-1";
    assert "1_0"[1..] == "_0" && "_0"[1..] == "0" && "1_"[1..] == "_" && "_"[1..] == [];
    DigitScans('f', 16, 0);
    DigitScans('5', 10, 0);
    DigitScans('0', 10, 1);
    assert ScanDigits("_0", 10, 1, true) == ScanDigits("0", 10, 1, false);
  }

  /** Both sides write and read the usual digits. */
  lemma NumeralExamples()
    ensures Digits(9042, 10) == "9042" && Signed(-7) == "-7" && Digits(171, 16) == "ab"
    ensures ParseValue("9042") == Ok(IntV(9042)) && ParseValue("-7") == Ok(IntV(-7))
    ensures ParseValue("0xab") == Ok(IntV(171))
  {
    assert Digits(904, 10) == Digits(90, 10) + "4" && Digits(90, 10) == "90" && Digits(10, 16) == "a";
    NonNegativeParses(9042);
    SignedParses(-7);
    HexParses(171);
    assert "0x" + "ab" == "0xab";
  }
}

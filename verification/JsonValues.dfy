/** JSON values, and what is asked of an encoder for them. The printer below
    shows that such an encoder exists. */
module JsonValues {
  import opened Options
  import opened Text

  /** A number is a mantissa times a power of ten, as a numeral writes it. */
  datatype Json =
    | Null
    | Bool(b: bool)
    | Number(mantissa: int, exponent: int)
    | Str(s: string)
    | Arr(items: seq<Json>)
    | Obj(fields: Fields)

  /** A dictionary: its keys in the order of their insertion, in which they are
      written, and their values. */
  datatype Fields = Fields(keys: seq<string>, at: map<string, Json>)

  const NO_FIELDS := Fields([], map[])

  /** Every key once, and none without a value. */
  predicate Listed(d: Fields) {
    && (forall i, j :: 0 <= i < j < |d.keys| ==> d.keys[i] != d.keys[j])
    && (forall k :: k in d.keys ==> k in d.at) && (forall k :: k in d.at ==> k in d.keys)
  }

  /** Built of dictionaries only, as every value that the program handles. */
  predicate Proper(j: Json)
    decreases j
  {
    match j
    case Arr(items) => forall i :: 0 <= i < |items| ==> Proper(items[i])
    case Obj(fields) => ProperFields(fields)
    case _ => true
  }

  predicate ProperFields(d: Fields)
    decreases d
  {
    Listed(d) && forall k :: k in d.at ==> Proper(d.at[k])
  }

  function Integer(n: int): Json { Number(n, 0) }

  predicate Truthy(j: Json) {
    match j
    case Null => false
    case Bool(b) => b
    case Number(m, _) => m != 0
    case Str(s) => s != ""
    case Arr(items) => items != []
    case Obj(fields) => fields.keys != []
  }

  /** What Python takes for false. */
  lemma {:induction false} FalseValues(j: Json)
    ensures !Truthy(j) <==>
            j == Null || j == Bool(false) || (j.Number? && j.mantissa == 0) || j == Str("") || j == Arr([]) ||
            (j.Obj? && j.fields.keys == [])
    ensures OrElse(j, Null) == (if Truthy(j) then j else Null)
  {}

  function OrElse(j: Json, default: Json): Json { if Truthy(j) then j else default }

  function Get(o: Fields, key: string): Json { if key in o.at then o.at[key] else Null }

  function Inner(j: Json): Fields { if j.Obj? then j.fields else NO_FIELDS }

  lemma {:induction false} GetIsProper(d: Fields, key: string)
    requires ProperFields(d)
    ensures Proper(Get(d, key))
  {}

  lemma {:induction false} InnerIsProper(j: Json)
    requires Proper(j)
    ensures ProperFields(Inner(j))
  {}

  /** To be proper a dictionary needs every key once, and proper values. */
  lemma {:induction false} ProperByKeys(d: Fields)
    requires Listed(d) && forall i :: 0 <= i < |d.keys| ==> Proper(d.at[d.keys[i]])
    ensures ProperFields(d)
  {
    forall k | k in d.at ensures Proper(d.at[k]) {
      var i :| 0 <= i < |d.keys| && d.keys[i] == k;
    }
  }

  /** Equality of values as Python has it: dictionaries in any order. */
  predicate Same(a: Json, b: Json)
    decreases a
  {
    match a
    case Arr(items) =>
      b.Arr? && |items| == |b.items| && forall i :: 0 <= i < |items| ==> Same(items[i], b.items[i])
    case Obj(fields) => b.Obj? && SameFields(fields, b.fields)
    case _ => a == b
  }

  predicate SameFields(d: Fields, e: Fields)
    decreases d
  {
    d.at.Keys == e.at.Keys && forall k :: k in d.at ==> Same(d.at[k], e.at[k])
  }

  lemma {:induction false} SameSelf(a: Json)
    ensures Same(a, a)
    decreases a
  {
    match a
    case Arr(items) =>
      forall i | 0 <= i < |items| ensures Same(items[i], items[i]) {
        SameSelf(items[i]);
      }
    case Obj(fields) =>
      forall k | k in fields.at ensures Same(fields.at[k], fields.at[k]) {
        SameSelf(fields.at[k]);
      }
    case _ =>
  }

  datatype Codec = Codec(encode: Json -> string, decode: string -> Option<Json>)

  const DONE_MARK := "[DONE]"

  /** Encoding is undone by decoding and writes no line breaks; the end
      marker of a chat stream is not JSON. */
  ghost predicate Faithful(c: Codec) {
    && (forall x :: Proper(x) ==> c.decode(c.encode(x)) == Some(x) && OneLine(c.encode(x)))
    && c.decode(DONE_MARK) == None
  }

  // ---- a printer whose output no other output starts with

  function Escaped(c: char): string {
    if c == '"' then "\\\"" else if c == '\\' then "\\\\"
    else if c == '\n' then "\\n" else if c == '\r' then "\\r" else [c]
  }

  function Chars(s: string): string {
    if s == "" then "" else Escaped(s[0]) + Chars(s[1..])
  }

  function Quoted(s: string): string { "\"" + (Chars(s) + "\"") }

  function Signed(n: int): string { if n < 0 then "-" + Decimal(-n) else Decimal(n) }

  function Numeral(m: int, e: int): string { Signed(m) + ("e" + (Signed(e) + " ")) }

  function Print(j: Json): string
    decreases j, 0
  {
    match j
    case Null => "null"
    case Bool(b) => if b then "true" else "false"
    case Number(m, e) => Numeral(m, e)
    case Str(s) => Quoted(s)
    case Arr(items) => "[" + Items(items)
    case Obj(fields) => "{" + Members(fields, fields.keys)
  }

  function Items(js: seq<Json>): string
    decreases js, 0
  {
    if js == [] then "]" else "," + (Print(js[0]) + Items(js[1..]))
  }

  function Members(d: Fields, keys: seq<string>): string
    decreases d, |keys|
  {
    if keys == [] then "}"
    else
      var value := if keys[0] in d.at then Print(d.at[keys[0]]) else "";
      "," + (Quoted(keys[0]) + (value + Members(d, keys[1..])))
  }

  // ---- equal prints are prints of equal values, whatever follows them

  lemma {:induction false} CharsDecide(s: string, t: string, u: string, v: string)
    requires Chars(s) + ("\"" + u) == Chars(t) + ("\"" + v)
    ensures s == t && u == v
    decreases |s|
  {
    CharsBegin(s, u);
    CharsBegin(t, v);
    if s != "" && t != "" {
      Assoc(Escaped(s[0]), Chars(s[1..]), "\"" + u);
      Assoc(Escaped(t[0]), Chars(t[1..]), "\"" + v);
      EscapeDecides(s[0], t[0], Chars(s[1..]) + ("\"" + u), Chars(t[1..]) + ("\"" + v));
      CharsDecide(s[1..], t[1..], u, v);
    }
  }

  lemma {:induction false} CharsBegin(s: string, u: string)
    ensures var x := Chars(s) + ("\"" + u);
            && x[0] == (if s == "" then '"' else Escaped(s[0])[0]) && (s == "" ==> x[1..] == u)
            && (x[0] == '"' <==> s == "")
  {}

  lemma {:induction false} EscapeDecides(c: char, d: char, u: string, v: string)
    requires Escaped(c) + u == Escaped(d) + v
    ensures c == d && u == v
  {
    var x, y := Escaped(c) + u, Escaped(d) + v;
    assert x[0] == Escaped(c)[0] && y[0] == Escaped(d)[0];
    assert |Escaped(c)| == 2 ==> x[1] == Escaped(c)[1];
    assert |Escaped(d)| == 2 ==> y[1] == Escaped(d)[1];
    assert x[|Escaped(c)|..] == u && y[|Escaped(d)|..] == v;
  }

  lemma {:induction false} QuotedDecides(s: string, t: string, u: string, v: string)
    requires Quoted(s) + u == Quoted(t) + v
    ensures s == t && u == v
  {
    QuotedAgain(s, u);
    QuotedAgain(t, v);
    CharsDecide(s, t, u, v);
  }

  lemma {:induction false} QuotedAgain(s: string, u: string)
    ensures (Quoted(s) + u)[1..] == Chars(s) + ("\"" + u)
  {
    Assoc(Chars(s), "\"", u);
    assert Quoted(s) + u == "\"" + ((Chars(s) + "\"") + u);
  }

  predicate Without(s: string, c: char) {
    forall i :: 0 <= i < |s| ==> s[i] != c
  }

  lemma {:induction false} MarkDecides(a: string, b: string, mark: char, u: string, v: string)
    requires Without(a, mark) && Without(b, mark) && a + ([mark] + u) == b + ([mark] + v)
    ensures a == b && u == v
  {
    var x, y := a + ([mark] + u), b + ([mark] + v);
    assert x[|a|] == mark && y[|b|] == mark;
    assert forall i :: 0 <= i < |a| ==> x[i] == a[i];
    assert forall i :: 0 <= i < |b| ==> y[i] == b[i];
    assert x[..|a|] == a && y[..|b|] == b;
    assert x[|a| + 1..] == u && y[|b| + 1..] == v;
  }

  lemma {:induction false} SignedReads(n: int)
    ensures Signed(n) != "" && (Signed(n)[0] == '-' || IsDigit(Signed(n)[0]))
    ensures Without(Signed(n), 'e') && Without(Signed(n), ' ') && OneLine(Signed(n))
  {
    DecimalReadsBack(if n < 0 then -n else n);
  }

  lemma {:induction false} SignedInjective(m: int, n: int)
    requires Signed(m) == Signed(n)
    ensures m == n
  {
    DecimalReadsBack(if m < 0 then -m else m);
    DecimalReadsBack(if n < 0 then -n else n);
    assert m < 0 ==> Signed(m)[0] == '-' && Signed(m)[1..] == Decimal(-m);
    assert n < 0 ==> Signed(n)[0] == '-' && Signed(n)[1..] == Decimal(-n);
  }

  lemma {:induction false} NumeralDecides(m: int, e: int, n: int, f: int, u: string, v: string)
    requires Numeral(m, e) + u == Numeral(n, f) + v
    ensures m == n && e == f && u == v
  {
    SignedReads(m);
    SignedReads(n);
    SignedReads(e);
    SignedReads(f);
    NumeralThen(m, e, u);
    NumeralThen(n, f, v);
    MarkDecides(Signed(m), Signed(n), 'e', Signed(e) + (" " + u), Signed(f) + (" " + v));
    MarkDecides(Signed(e), Signed(f), ' ', u, v);
    SignedInjective(m, n);
    SignedInjective(e, f);
  }

  lemma {:induction false} NumeralThen(m: int, e: int, u: string)
    ensures Numeral(m, e) + u == Signed(m) + (['e'] + (Signed(e) + ([' '] + u)))
  {
    Assoc(Signed(m), "e" + (Signed(e) + " "), u);
    Assoc("e", Signed(e) + " ", u);
    Assoc(Signed(e), " ", u);
  }

  /** The first character tells the kind of value. */
  function KindAt(c: char): nat {
    if c == 'n' then 0 else if c == 't' || c == 'f' then 1 else if c == '"' then 3
    else if c == '[' then 4 else if c == '{' then 5 else 2
  }

  function Kind(j: Json): nat {
    match j case Null => 0 case Bool(_) => 1 case Number(_, _) => 2 case Str(_) => 3 case Arr(_) => 4 case Obj(_) => 5
  }

  lemma {:induction false} FirstTellsKind(j: Json, u: string)
    ensures Print(j) != "" && KindAt((Print(j) + u)[0]) == Kind(j)
  {
    if j.Number? {
      SignedReads(j.mantissa);
      assert (Print(j) + u)[0] == Signed(j.mantissa)[0];
    }
  }

  lemma {:induction false} PrintDecides(x: Json, y: Json, u: string, v: string)
    requires Proper(x) && Proper(y) && Print(x) + u == Print(y) + v
    ensures x == y && u == v
    decreases x, 0
  {
    FirstTellsKind(x, u);
    FirstTellsKind(y, v);
    match x
    case Null => WordDecides("null", "null", u, v);
    case Bool(b) =>
      assert (Print(x) + u)[0] == Print(x)[0] && (Print(y) + v)[0] == Print(y)[0];
      WordDecides(Print(x), Print(y), u, v);
    case Number(m, e) => NumeralDecides(m, e, y.mantissa, y.exponent, u, v);
    case Str(s) => QuotedDecides(s, y.s, u, v);
    case Arr(items) =>
      AfterFirst('[', Items(items), u);
      AfterFirst('[', Items(y.items), v);
      ItemsDecide(items, y.items, u, v);
    case Obj(fields) =>
      AfterFirst('{', Members(fields, fields.keys), u);
      AfterFirst('{', Members(y.fields, y.fields.keys), v);
      MembersDecide(fields, fields.keys, y.fields, y.fields.keys, u, v);
  }

  lemma {:induction false} WordDecides(a: string, b: string, u: string, v: string)
    requires a == b && a + u == b + v
    ensures u == v
  {
    assert (a + u)[|a|..] == u && (b + v)[|b|..] == v;
  }

  lemma {:induction false} AfterFirst(c: char, s: string, u: string)
    ensures ([c] + s + u)[0] == c && ([c] + s + u)[1..] == s + u
  {}

  lemma {:induction false} ItemsDecide(xs: seq<Json>, ys: seq<Json>, u: string, v: string)
    requires forall i :: 0 <= i < |xs| ==> Proper(xs[i])
    requires forall i :: 0 <= i < |ys| ==> Proper(ys[i])
    requires Items(xs) + u == Items(ys) + v
    ensures xs == ys && u == v
    decreases xs, 0
  {
    assert (Items(xs) + u)[0] == if xs == [] then ']' else ',';
    assert (Items(ys) + v)[0] == if ys == [] then ']' else ',';
    if xs != [] && ys != [] {
      ItemThen(xs, u);
      ItemThen(ys, v);
      PrintDecides(xs[0], ys[0], Items(xs[1..]) + u, Items(ys[1..]) + v);
      ItemsDecide(xs[1..], ys[1..], u, v);
      assert xs == [xs[0]] + xs[1..] && ys == [ys[0]] + ys[1..];
    } else {
      WordDecides("]", "]", u, v);
    }
  }

  lemma {:induction false} ItemThen(xs: seq<Json>, u: string)
    requires xs != []
    ensures (Items(xs) + u)[1..] == Print(xs[0]) + (Items(xs[1..]) + u)
  {
    AfterFirst(',', Print(xs[0]) + Items(xs[1..]), u);
    Assoc(Print(xs[0]), Items(xs[1..]), u);
  }

  ghost predicate KeysOf(d: Fields, keys: seq<string>) {
    forall k :: k in keys ==> k in d.at && Proper(d.at[k])
  }

  lemma {:induction false} MembersDecide(d: Fields, ks: seq<string>, e: Fields, ls: seq<string>, u: string, v: string)
    requires KeysOf(d, ks) && KeysOf(e, ls) && Members(d, ks) + u == Members(e, ls) + v
    ensures ks == ls && u == v && forall k :: k in ks ==> d.at[k] == e.at[k]
    decreases d, |ks|
  {
    assert (Members(d, ks) + u)[0] == if ks == [] then '}' else ',';
    assert (Members(e, ls) + v)[0] == if ls == [] then '}' else ',';
    if ks != [] && ls != [] {
      MemberThen(d, ks, u);
      MemberThen(e, ls, v);
      var x, y := d.at[ks[0]], e.at[ls[0]];
      QuotedDecides(ks[0], ls[0], Print(x) + (Members(d, ks[1..]) + u), Print(y) + (Members(e, ls[1..]) + v));
      PrintDecides(x, y, Members(d, ks[1..]) + u, Members(e, ls[1..]) + v);
      MembersDecide(d, ks[1..], e, ls[1..], u, v);
      assert ks == [ks[0]] + ks[1..] && ls == [ls[0]] + ls[1..];
    } else {
      WordDecides("}", "}", u, v);
    }
  }

  lemma {:induction false} MemberThen(d: Fields, ks: seq<string>, u: string)
    requires ks != [] && ks[0] in d.at
    ensures (Members(d, ks) + u)[1..] == Quoted(ks[0]) + (Print(d.at[ks[0]]) + (Members(d, ks[1..]) + u))
  {
    var rest := Print(d.at[ks[0]]) + Members(d, ks[1..]);
    AfterFirst(',', Quoted(ks[0]) + rest, u);
    Assoc(Quoted(ks[0]), rest, u);
    Assoc(Print(d.at[ks[0]]), Members(d, ks[1..]), u);
  }

  // ---- no line breaks, and no end marker

  lemma {:induction false} CharsOneLine(s: string)
    ensures OneLine(Chars(s))
  {
    if s != "" {
      CharsOneLine(s[1..]);
    }
  }

  lemma {:induction false} PrintOneLine(j: Json)
    ensures OneLine(Print(j))
    decreases j, 0
  {
    match j
    case Null =>
    case Bool(_) =>
    case Number(m, e) =>
      SignedReads(m);
      SignedReads(e);
    case Str(s) => CharsOneLine(s);
    case Arr(items) => ItemsOneLine(items);
    case Obj(fields) => MembersOneLine(fields, fields.keys);
  }

  lemma {:induction false} ItemsOneLine(js: seq<Json>)
    ensures OneLine(Items(js))
    decreases js, 0
  {
    if js != [] {
      PrintOneLine(js[0]);
      ItemsOneLine(js[1..]);
    }
  }

  lemma {:induction false} MembersOneLine(d: Fields, keys: seq<string>)
    ensures OneLine(Members(d, keys))
    decreases d, |keys|
  {
    if keys != [] {
      var value := if keys[0] in d.at then Print(d.at[keys[0]]) else "";
      CharsOneLine(keys[0]);
      if keys[0] in d.at {
        PrintOneLine(d.at[keys[0]]);
      }
      MembersOneLine(d, keys[1..]);
    }
  }

  lemma {:induction false} NotTheEndMark(j: Json)
    ensures Print(j) != DONE_MARK
  {
    FirstTellsKind(j, "");
    assert Print(j) + "" == Print(j);
    if j.Arr? {
      assert Print(j)[1] == Items(j.items)[0];
    }
  }

  ghost function ReadBack(s: string): Option<Json> {
    if exists j :: Proper(j) && Print(j) == s then (var j :| Proper(j) && Print(j) == s; Some(j)) else None
  }

  /** What is asked of an encoder can be met. */
  lemma {:induction false} FaithfulCodecExists() returns (c: Codec)
    ensures Faithful(c)
  {
    c := Codec((j: Json) => Print(j), (s: string) => ReadBack(s));
    forall x | Proper(x) ensures c.decode(c.encode(x)) == Some(x) && OneLine(c.encode(x)) {
      PrintOneLine(x);
      var y :| Proper(y) && Print(y) == Print(x) && ReadBack(Print(x)) == Some(y);
      PrintDecides(x, y, "", "");
    }
    forall j ensures Print(j) != DONE_MARK {
      NotTheEndMark(j);
    }
  }
}

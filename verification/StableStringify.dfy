/**
 * `stableStringify`, the canonical text of queue preferences: JSON with the keys of every object in
 * sorted order. Keys are printed between quotes as they are; only string values are escaped.
 */
module StableStringify {
  import opened Text

  /** A parsed JSON value; a number is its printed text, an object its entries in insertion order. A
      literal beyond the range of doubles, like 1e999, is parsed to an infinity. */
  datatype Value =
    | Null
    | Bool(b: bool)
    | Num(text: string)
    | Infinite(negative: bool)
    | Str(s: string)
    | Arr(items: seq<Value>)
    | Obj(entries: seq<(string, Value)>)

  // ---- Objects ----

  function Keys(e: seq<(string, Value)>): (ks: seq<string>)
    ensures |ks| == |e| && forall i :: 0 <= i < |e| ==> ks[i] == e[i].0
  {
    seq(|e|, i requires 0 <= i < |e| => e[i].0)
  }

  predicate Distinct(ks: seq<string>) {
    forall i, j :: 0 <= i < j < |ks| ==> ks[i] != ks[j]
  }

  function IndexOf(ks: seq<string>, k: string): (i: nat)
    requires k in ks
    ensures i < |ks| && ks[i] == k
  {
    if ks[0] == k then 0 else 1 + IndexOf(ks[1..], k)
  }

  /** `record[key]`. */
  function Lookup(v: Value, k: string): (r: Value)
    requires v.Obj? && k in Keys(v.entries)
    ensures (k, r) in v.entries && r < v
  {
    var i := IndexOf(Keys(v.entries), k);
    assert v.entries[i] == (k, v.entries[i].1);
    v.entries[i].1
  }

  // ---- `sort()` on keys ----

  function Insert(k: string, ks: seq<string>): (r: seq<string>)
    ensures forall l :: l in r <==> l == k || l in ks
  {
    if ks == [] || Less(k, ks[0]) then [k] + ks else [ks[0]] + Insert(k, ks[1..])
  }

  function SortKeys(ks: seq<string>): (r: seq<string>)
    ensures forall l :: l in r <==> l in ks
  {
    if ks == [] then [] else Insert(ks[0], SortKeys(ks[1..]))
  }

  ghost predicate Ascending(ks: seq<string>) {
    forall i, j :: 0 <= i < j < |ks| ==> Less(ks[i], ks[j])
  }

  lemma {:induction false} InsertAscending(k: string, ks: seq<string>)
    requires Ascending(ks) && k !in ks
    ensures Ascending(Insert(k, ks))
  {
    if ks == [] {
    } else if Less(k, ks[0]) {
      forall j | 0 <= j < |ks|
        ensures Less(k, ks[j])
      {
        if j > 0 {
          LessTransitive(k, ks[0], ks[j]);
        }
      }
    } else {
      InsertAscending(k, ks[1..]);
      var r := Insert(k, ks[1..]);
      LessTotal(k, ks[0]);
      forall j | 0 <= j < |r|
        ensures Less(ks[0], r[j])
      {
        assert r[j] in r;
      }
    }
  }

  lemma {:induction false} SortAscending(ks: seq<string>)
    requires Distinct(ks)
    ensures Ascending(SortKeys(ks))
  {
    if ks != [] {
      SortAscending(ks[1..]);
      InsertAscending(ks[0], SortKeys(ks[1..]));
    }
  }

  /** Two ascending sequences of the same keys are the same. */
  lemma {:induction false} AscendingUnique(a: seq<string>, b: seq<string>)
    requires Ascending(a) && Ascending(b)
    requires forall k :: k in a <==> k in b
    ensures a == b
  {
    if a == [] || b == [] {
      assert forall k :: k in a + b <==> k in a;
      NoMembers(a);
      NoMembers(b);
    } else {
      HeadsAgree(a, b);
      TailHas(a);
      TailHas(b);
      AscendingUnique(a[1..], b[1..]);
    }
  }

  lemma NoMembers(a: seq<string>)
    ensures a == [] <==> forall k :: k !in a
  {
    if a != [] {
      assert a[0] in a;
    }
  }

  lemma HeadsAgree(a: seq<string>, b: seq<string>)
    requires Ascending(a) && Ascending(b) && a != [] && b != []
    requires forall k :: k in a <==> k in b
    ensures a[0] == b[0]
  {
    assert a[0] in b && b[0] in a;
    LessAsymmetric(a[0], b[0]);
  }

  lemma TailHas(a: seq<string>)
    requires Ascending(a) && a != []
    ensures Ascending(a[1..])
    ensures forall k :: k in a[1..] <==> k in a && k != a[0]
  {
    forall j | 0 < j < |a|
      ensures a[j] != a[0]
    {
      LessAsymmetric(a[0], a[j]);
    }
  }

  // ---- Strings ----

  const HEX: string := "0123456789abcdef"

  /** How `JSON.stringify` writes one character of a string. */
  function EscapeChar(c: char): string {
    if c == '\"' then "\\\""
    else if c == '\\' then "\\\\"
    else if c == 8 as char then "\\b"
    else if c == 12 as char then "\\f"
    else if c == '\n' then "\\n"
    else if c == '\r' then "\\r"
    else if c == '\t' then "\\t"
    else if c < ' ' then "\\u00" + [HEX[c as int / 16], HEX[c as int % 16]]
    else [c]
  }

  function Escape(s: string): string {
    if s == "" then "" else EscapeChar(s[0]) + Escape(s[1..])
  }

  // ---- The printer ----

  function Print(v: Value): string
    decreases v, 1, 0
  {
    match v
    case Null => "null"
    case Bool(b) => if b then "true" else "false"
    case Num(text) => text
    case Infinite(_) => "null"
    case Str(s) => "\"" + Escape(s) + "\""
    case Arr(items) => "[" + PrintItems(v, 0) + "]"
    case Obj(entries) => "{" + PrintFields(v, SortKeys(Keys(entries))) + "}"
  }

  /** The items from `i` on, joined by commas. */
  function PrintItems(v: Value, i: nat): string
    requires v.Arr? && i <= |v.items|
    decreases v, 0, |v.items| - i
  {
    if i == |v.items| then ""
    else Print(v.items[i]) + (if i + 1 == |v.items| then "" else "," + PrintItems(v, i + 1))
  }

  function PrintFields(v: Value, keys: seq<string>): string
    requires v.Obj? && forall k :: k in keys ==> k in Keys(v.entries)
    decreases v, 0, |keys|
  {
    if keys == [] then ""
    else "\"" + (keys[0] + "\":" + (Print(Lookup(v, keys[0])) +
                                  (if |keys| == 1 then "" else "," + PrintFields(v, keys[1..]))))
  }

  // ---- What the text stands for ----

  /** Equal up to the order of keys, at every depth. */
  ghost predicate Same(v: Value, w: Value)
    decreases v
  {
    if v.Arr? && w.Arr? then
      |v.items| == |w.items| && forall i :: 0 <= i < |v.items| ==> Same(v.items[i], w.items[i])
    else if v.Obj? && w.Obj? then
      && (forall k :: k in Keys(v.entries) <==> k in Keys(w.entries))
      && (forall k :: k in Keys(v.entries) && k in Keys(w.entries) ==> Same(Lookup(v, k), Lookup(w, k)))
    else v == w
  }

  predicate Nullish(v: Value) { v.Null? || v.Infinite? }

  /** Equal up to the order of keys, and up to what takes the place of an infinity. */
  ghost predicate Alike(v: Value, w: Value)
    decreases v
  {
    if Nullish(v) || Nullish(w) then Nullish(v) && Nullish(w)
    else if v.Arr? && w.Arr? then
      |v.items| == |w.items| && forall i :: 0 <= i < |v.items| ==> Alike(v.items[i], w.items[i])
    else if v.Obj? && w.Obj? then
      && (forall k :: k in Keys(v.entries) <==> k in Keys(w.entries))
      && (forall k :: k in Keys(v.entries) && k in Keys(w.entries) ==> Alike(Lookup(v, k), Lookup(w, k)))
    else v == w
  }

  /** No infinity in it, at any depth. */
  ghost predicate Finite(v: Value)
    decreases v
  {
    match v
    case Infinite(_) => false
    case Arr(items) => forall i :: 0 <= i < |items| ==> Finite(items[i])
    case Obj(entries) => forall k :: k in Keys(entries) ==> Finite(Lookup(v, k))
    case _ => true
  }

  /** No null in it, at any depth. */
  ghost predicate NullFree(v: Value)
    decreases v
  {
    match v
    case Null => false
    case Arr(items) => forall i :: 0 <= i < |items| ==> NullFree(items[i])
    case Obj(entries) => forall k :: k in Keys(entries) ==> NullFree(Lookup(v, k))
    case _ => true
  }

  predicate NumChar(c: char) {
    '0' <= c <= '9' || c == '-' || c == '+' || c == '.' || c == 'e' || c == 'E'
  }

  predicate NumText(s: string) {
    s != "" && ('0' <= s[0] <= '9' || s[0] == '-') && forall i :: 0 <= i < |s| ==> NumChar(s[i])
  }

  /** A key with no `":` in it: printed without escapes, it still ends where it seems to. */
  predicate KeyOk(k: string) {
    forall i :: 0 <= i < |k| - 1 ==> !(k[i] == '\"' && k[i + 1] == ':')
  }

  /** Numbers look like numbers, and the keys of an object are distinct. */
  ghost predicate Json(v: Value)
    decreases v
  {
    match v
    case Num(text) => NumText(text)
    case Arr(items) => forall i :: 0 <= i < |items| ==> Json(items[i])
    case Obj(entries) =>
      Distinct(Keys(entries)) && forall k :: k in Keys(entries) ==> Json(Lookup(v, k))
    case _ => true
  }

  ghost predicate KeysOk(v: Value)
    decreases v
  {
    match v
    case Arr(items) => forall i :: 0 <= i < |items| ==> KeysOk(items[i])
    case Obj(entries) => forall k :: k in Keys(entries) ==> KeyOk(k) && KeysOk(Lookup(v, k))
    case _ => true
  }

  // ---- Alike: the same text ----

  lemma {:induction false} AlikePrintsSame(v: Value, w: Value)
    requires Json(v) && Json(w) && Alike(v, w)
    ensures Print(v) == Print(w)
    decreases v, 1, 0
  {
    if v.Arr? && w.Arr? {
      AlikeItems(v, w, 0);
    } else if v.Obj? && w.Obj? {
      var ks, ls := SortKeys(Keys(v.entries)), SortKeys(Keys(w.entries));
      SortAscending(Keys(v.entries));
      SortAscending(Keys(w.entries));
      AscendingUnique(ks, ls);
      AlikeFields(v, w, ks);
    }
  }

  lemma {:induction false} AlikeItems(v: Value, w: Value, i: nat)
    requires v.Arr? && w.Arr? && Json(v) && Json(w) && Alike(v, w) && i <= |v.items|
    ensures PrintItems(v, i) == PrintItems(w, i)
    decreases v, 0, |v.items| - i
  {
    if i < |v.items| {
      AlikePrintsSame(v.items[i], w.items[i]);
      AlikeItems(v, w, i + 1);
    }
  }

  lemma {:induction false} AlikeFields(v: Value, w: Value, keys: seq<string>)
    requires v.Obj? && w.Obj? && Json(v) && Json(w) && Alike(v, w)
    requires forall k :: k in keys ==> k in Keys(v.entries)
    ensures PrintFields(v, keys) == PrintFields(w, keys)
    decreases v, 0, |keys|
  {
    if keys != [] {
      AlikePrintsSame(Lookup(v, keys[0]), Lookup(w, keys[0]));
      AlikeFields(v, w, keys[1..]);
    }
  }

  // ---- The same text: alike ----

  /** What can follow a printed value. */
  predicate Stop(x: string) {
    x == "" || x[0] == ',' || x[0] == ']' || x[0] == '}'
  }

  lemma CharCode(c: char, d: char, x: string, y: string)
    requires EscapeChar(c) + x == EscapeChar(d) + y
    ensures c == d && x == y
  {
    var p, q := EscapeChar(c), EscapeChar(d);
    assert (p + x)[0] == p[0] && (q + y)[0] == q[0];
    if |p| > 1 && |q| > 1 {
      assert (p + x)[1] == p[1] && (q + y)[1] == q[1];
      if |p| == 6 && |q| == 6 {
        assert (p + x)[4] == p[4] && (q + y)[4] == q[4] && (p + x)[5] == p[5] && (q + y)[5] == q[5];
        HexCode(c as int / 16, d as int / 16);
        HexCode(c as int % 16, d as int % 16);
      }
    }
    assert p == q;
    assert (p + x)[|p|..] == x && (q + y)[|q|..] == y;
  }

  lemma HexCode(m: nat, n: nat)
    requires m < 16 && n < 16 && HEX[m] == HEX[n]
    ensures m == n
  {
  }

  /** The closing quote is not the start of an escaped character. */
  lemma QuoteEnds(t: string, x: string, y: string)
    requires t != ""
    ensures "\"" + x != Escape(t) + "\"" + y
  {
    assert (Escape(t) + "\"" + y)[0] == EscapeChar(t[0])[0] != '\"';
  }

  lemma {:induction false} EscapeCode(s: string, t: string, x: string, y: string)
    requires Escape(s) + "\"" + x == Escape(t) + "\"" + y
    ensures s == t && x == y
  {
    if s == "" && t == "" {
      assert Escape("") + "\"" == "\"";
      Drop("\"", x, "\"", y);
    } else if s == "" {
      assert Escape("") + "\"" == "\"";
      QuoteEnds(t, x, y);
    } else if t == "" {
      assert Escape("") + "\"" == "\"";
      QuoteEnds(s, y, x);
    } else {
      Regroup(EscapeChar(s[0]), Escape(s[1..]), "\"", x);
      Regroup(EscapeChar(t[0]), Escape(t[1..]), "\"", y);
      CharCode(s[0], t[0], Escape(s[1..]) + "\"" + x, Escape(t[1..]) + "\"" + y);
      EscapeCode(s[1..], t[1..], x, y);
      assert s == [s[0]] + s[1..] && t == [t[0]] + t[1..];
    }
  }

  lemma NumEnds(s: string, t: string, x: string, y: string)
    requires NumText(t) && Stop(x) && |s| < |t|
    ensures s + x != t + y
  {
    if x != "" {
      assert (s + x)[|s|] == x[0] && (t + y)[|s|] == t[|s|];
    }
  }

  lemma NumCode(s: string, t: string, x: string, y: string)
    requires NumText(s) && NumText(t) && Stop(x) && Stop(y) && s + x == t + y
    ensures s == t && x == y
  {
    if |s| < |t| {
      NumEnds(s, t, x, y);
    } else if |t| < |s| {
      NumEnds(t, s, y, x);
    } else {
      assert s == (s + x)[..|s|] && t == (t + y)[..|s|];
      Drop(s, x, t, y);
    }
  }

  lemma KeyEnds(k: string, l: string, x: string, y: string)
    requires KeyOk(l) && |k| < |l|
    ensures k + "\":" + x != l + "\":" + y
  {
    var p, q := k + "\":" + x, l + "\":" + y;
    assert p[|k|] == '\"' && p[|k| + 1] == ':';
    assert q[|k|] == l[|k|] && q[|k| + 1] == if |k| + 1 < |l| then l[|k| + 1] else '\"';
  }

  lemma KeyCode(k: string, l: string, x: string, y: string)
    requires KeyOk(k) && KeyOk(l) && k + "\":" + x == l + "\":" + y
    ensures k == l && x == y
  {
    if |k| < |l| {
      KeyEnds(k, l, x, y);
    } else if |l| < |k| {
      KeyEnds(l, k, y, x);
    } else {
      assert k == (k + "\":" + x)[..|k|] && l == (l + "\":" + y)[..|k|];
      Drop(k + "\":", x, l + "\":", y);
    }
  }

  /** Which constructor a text starts with. */
  predicate Starts(v: Value, c: char) {
    match v
    case Null => c == 'n'
    case Infinite(_) => c == 'n'
    case Bool(b) => c == if b then 't' else 'f'
    case Num(_) => '0' <= c <= '9' || c == '-'
    case Str(_) => c == '\"'
    case Arr(_) => c == '['
    case Obj(_) => c == '{'
  }

  lemma PrintStarts(v: Value, x: string)
    requires Json(v)
    ensures Print(v) + x != "" && Starts(v, (Print(v) + x)[0])
  {
  }

  lemma {:induction false} PrintCode(v: Value, w: Value, x: string, y: string)
    requires Json(v) && Json(w) && KeysOk(v) && KeysOk(w) && Stop(x) && Stop(y)
    requires Print(v) + x == Print(w) + y
    ensures Alike(v, w) && x == y
    decreases v, 1, 0
  {
    PrintStarts(v, x);
    PrintStarts(w, y);
    var p, q := Print(v), Print(w);
    match v
    case Null => Drop(p, x, q, y);
    case Infinite(_) => Drop(p, x, q, y);
    case Bool(b) => Drop(p, x, q, y);
    case Num(s) => NumCode(s, w.text, x, y);
    case Str(s) =>
      Shift("\"", Escape(s), Escape(w.s), "\"", x, y);
      EscapeCode(s, w.s, x, y);
    case Arr(_) =>
      Shift("[", PrintItems(v, 0), PrintItems(w, 0), "]", x, y);
      ItemsCode(v, w, 0, x, y);
    case Obj(_) =>
      var ks, ls := SortKeys(Keys(v.entries)), SortKeys(Keys(w.entries));
      Shift("{", PrintFields(v, ks), PrintFields(w, ls), "}", x, y);
      FieldsCode(v, ks, w, ls, x, y);
  }

  lemma Drop(p: string, x: string, q: string, y: string)
    requires p + x == q + y && p == q
    ensures x == y
  {
    assert (p + x)[|p|..] == x && (q + y)[|q|..] == y;
  }

  lemma Shift(c: string, p: string, q: string, e: string, x: string, y: string)
    requires (c + p) + e + x == (c + q) + e + y
    ensures p + e + x == q + e + y
  {
    Regroup(c, p, e, x);
    Regroup(c, q, e, y);
    Drop(c, p + e + x, c, q + e + y);
  }

  lemma Regroup(a: string, b: string, c: string, x: string)
    ensures (a + b) + c + x == a + (b + c + x)
  {
  }

  lemma PullOut(a: string, b: string, c: string, d: string, e: string, x: string)
    ensures (a + (b + (c + d))) + e + x == a + (b + (c + (d + e + x)))
  {
  }

  lemma BracketEnds(v: Value, i: nat, x: string, y: string)
    requires v.Arr? && i < |v.items| && Json(v)
    ensures "]" + x != PrintItems(v, i) + "]" + y
  {
    Regroup(Print(v.items[i]), RestOfItems(v, i), "]", y);
    PrintStarts(v.items[i], RestOfItems(v, i) + "]" + y);
    assert ("]" + x)[0] == ']';
  }

  /** One of the arrays has no items left: then neither has. */
  lemma ItemsEnd(v: Value, w: Value, i: nat, x: string, y: string)
    requires v.Arr? && w.Arr? && Json(v) && Json(w) && i <= |v.items| && i <= |w.items|
    requires i == |v.items| || i == |w.items|
    requires PrintItems(v, i) + "]" + x == PrintItems(w, i) + "]" + y
    ensures |v.items| == |w.items| && x == y
  {
    assert "" + "]" == "]";
    if i < |w.items| {
      BracketEnds(w, i, x, y);
    } else if i < |v.items| {
      BracketEnds(v, i, y, x);
    } else {
      Drop("]", x, "]", y);
    }
  }

  lemma ItemsGoOn(v: Value, w: Value, i: nat, x: string, y: string)
    requires v.Arr? && w.Arr? && i < |v.items| && i < |w.items| && (i + 1 == |v.items| <==> i + 1 == |w.items|)
    requires RestOfItems(v, i) + "]" + x == RestOfItems(w, i) + "]" + y
    ensures PrintItems(v, i + 1) + "]" + x == PrintItems(w, i + 1) + "]" + y
  {
    if i + 1 < |v.items| {
      Shift(",", PrintItems(v, i + 1), PrintItems(w, i + 1), "]", x, y);
    }
  }

  lemma {:induction false} ItemsCode(v: Value, w: Value, i: nat, x: string, y: string)
    requires v.Arr? && w.Arr? && Json(v) && Json(w) && KeysOk(v) && KeysOk(w) && i <= |v.items| && i <= |w.items|
    requires PrintItems(v, i) + "]" + x == PrintItems(w, i) + "]" + y
    ensures |v.items| == |w.items| && x == y
    ensures forall j :: i <= j < |v.items| ==> Alike(v.items[j], w.items[j])
    decreases v, 0, |v.items| - i
  {
    if i == |v.items| || i == |w.items| {
      ItemsEnd(v, w, i, x, y);
    } else {
      FirstItemCode(v, w, i, x, y);
      ItemsGoOn(v, w, i, x, y);
      ItemsCode(v, w, i + 1, x, y);
      forall j | i <= j < |v.items| ensures Alike(v.items[j], w.items[j]) {
        if j != i {
          assert i + 1 <= j;
        }
      }
    }
  }

  lemma {:induction false} FirstItemCode(v: Value, w: Value, i: nat, x: string, y: string)
    requires v.Arr? && w.Arr? && Json(v) && Json(w) && KeysOk(v) && KeysOk(w) && i < |v.items| && i < |w.items|
    requires PrintItems(v, i) + "]" + x == PrintItems(w, i) + "]" + y
    ensures Alike(v.items[i], w.items[i]) && RestOfItems(v, i) + "]" + x == RestOfItems(w, i) + "]" + y
    ensures i + 1 == |v.items| <==> i + 1 == |w.items|
    decreases v, 0, 0
  {
    Regroup(Print(v.items[i]), RestOfItems(v, i), "]", x);
    Regroup(Print(w.items[i]), RestOfItems(w, i), "]", y);
    ItemStop(v, i, x);
    ItemStop(w, i, y);
    PrintCode(v.items[i], w.items[i], RestOfItems(v, i) + "]" + x, RestOfItems(w, i) + "]" + y);
  }

  /** Which character follows an item tells whether it is the last. */
  lemma ItemStop(v: Value, i: nat, x: string)
    requires v.Arr? && i < |v.items|
    ensures var r := RestOfItems(v, i) + "]" + x; Stop(r) && r != "" && r[0] == if i + 1 == |v.items| then ']' else ','
  {
  }

  /** What `PrintItems` puts after item `i`. */
  function RestOfItems(v: Value, i: nat): string
    requires v.Arr? && i < |v.items|
  {
    if i + 1 == |v.items| then "" else "," + PrintItems(v, i + 1)
  }

  function RestOfFields(v: Value, keys: seq<string>): string
    requires v.Obj? && keys != [] && forall k :: k in keys ==> k in Keys(v.entries)
  {
    if |keys| == 1 then "" else "," + PrintFields(v, keys[1..])
  }

  /** What follows the opening quote of the first key. */
  function AfterQuote(v: Value, keys: seq<string>, x: string): string
    requires v.Obj? && keys != [] && forall k :: k in keys ==> k in Keys(v.entries)
  {
    keys[0] + "\":" + (Print(Lookup(v, keys[0])) + (RestOfFields(v, keys) + "}" + x))
  }

  lemma FieldText(v: Value, keys: seq<string>, x: string)
    requires v.Obj? && keys != [] && forall k :: k in keys ==> k in Keys(v.entries)
    ensures PrintFields(v, keys) + "}" + x == "\"" + AfterQuote(v, keys, x)
  {
    PullOut("\"", keys[0] + "\":", Print(Lookup(v, keys[0])), RestOfFields(v, keys), "}", x);
  }

  lemma FieldStop(v: Value, keys: seq<string>, x: string)
    requires v.Obj? && keys != [] && forall k :: k in keys ==> k in Keys(v.entries)
    ensures var r := RestOfFields(v, keys) + "}" + x; Stop(r) && r != "" && r[0] == if |keys| == 1 then '}' else ','
  {
  }

  lemma BraceEnds(v: Value, keys: seq<string>, x: string, y: string)
    requires v.Obj? && keys != [] && forall k :: k in keys ==> k in Keys(v.entries)
    ensures "}" + x != PrintFields(v, keys) + "}" + y
  {
    FieldText(v, keys, y);
    assert ("}" + x)[0] == '}' && ("\"" + AfterQuote(v, keys, y))[0] == '\"';
  }

  /** One of the objects has no fields left: then neither has. */
  lemma FieldsEnd(v: Value, ks: seq<string>, w: Value, ls: seq<string>, x: string, y: string)
    requires v.Obj? && w.Obj? && (ks == [] || ls == [])
    requires (forall k :: k in ks ==> k in Keys(v.entries)) && (forall k :: k in ls ==> k in Keys(w.entries))
    requires PrintFields(v, ks) + "}" + x == PrintFields(w, ls) + "}" + y
    ensures ks == ls && x == y
  {
    assert "" + "}" == "}";
    if ls != [] {
      BraceEnds(w, ls, x, y);
    } else if ks != [] {
      BraceEnds(v, ks, y, x);
    } else {
      Drop("}", x, "}", y);
    }
  }

  lemma FieldsGoOn(v: Value, ks: seq<string>, w: Value, ls: seq<string>, x: string, y: string)
    requires v.Obj? && w.Obj? && ks != [] && ls != [] && (|ks| == 1 <==> |ls| == 1)
    requires (forall k :: k in ks ==> k in Keys(v.entries)) && (forall k :: k in ls ==> k in Keys(w.entries))
    requires RestOfFields(v, ks) + "}" + x == RestOfFields(w, ls) + "}" + y
    ensures PrintFields(v, ks[1..]) + "}" + x == PrintFields(w, ls[1..]) + "}" + y
  {
    if |ks| > 1 {
      Shift(",", PrintFields(v, ks[1..]), PrintFields(w, ls[1..]), "}", x, y);
    }
  }

  lemma {:induction false} FieldsCode(v: Value, ks: seq<string>, w: Value, ls: seq<string>, x: string, y: string)
    requires v.Obj? && w.Obj? && Json(v) && Json(w) && KeysOk(v) && KeysOk(w)
    requires (forall k :: k in ks ==> k in Keys(v.entries)) && (forall k :: k in ls ==> k in Keys(w.entries))
    requires PrintFields(v, ks) + "}" + x == PrintFields(w, ls) + "}" + y
    ensures ks == ls && x == y
    ensures forall k :: k in ks && k in Keys(v.entries) && k in Keys(w.entries) ==> Alike(Lookup(v, k), Lookup(w, k))
    decreases v, 0, |ks|
  {
    if ks == [] || ls == [] {
      FieldsEnd(v, ks, w, ls, x, y);
    } else {
      FieldText(v, ks, x);
      FieldText(w, ls, y);
      Drop("\"", AfterQuote(v, ks, x), "\"", AfterQuote(w, ls, y));
      FirstFieldCode(v, ks, w, ls, x, y);
      FieldsGoOn(v, ks, w, ls, x, y);
      FieldsCode(v, ks[1..], w, ls[1..], x, y);
      assert ks == [ks[0]] + ks[1..] && ls == [ls[0]] + ls[1..];
    }
  }

  lemma {:induction false} FirstFieldCode(v: Value, ks: seq<string>, w: Value, ls: seq<string>, x: string, y: string)
    requires v.Obj? && w.Obj? && Json(v) && Json(w) && KeysOk(v) && KeysOk(w) && ks != [] && ls != []
    requires (forall k :: k in ks ==> k in Keys(v.entries)) && (forall k :: k in ls ==> k in Keys(w.entries))
    requires AfterQuote(v, ks, x) == AfterQuote(w, ls, y)
    ensures ks[0] == ls[0] && Alike(Lookup(v, ks[0]), Lookup(w, ls[0]))
    ensures RestOfFields(v, ks) + "}" + x == RestOfFields(w, ls) + "}" + y
    ensures |ks| == 1 <==> |ls| == 1
    decreases v, 0, 0
  {
    var x', y' := RestOfFields(v, ks) + "}" + x, RestOfFields(w, ls) + "}" + y;
    FieldStop(v, ks, x);
    FieldStop(w, ls, y);
    KeyCode(ks[0], ls[0], Print(Lookup(v, ks[0])) + x', Print(Lookup(w, ls[0])) + y');
    PrintCode(Lookup(v, ks[0]), Lookup(w, ls[0]), x', y');
  }

  // ---- Alike and same ----

  lemma {:induction false} SameIsAlike(v: Value, w: Value)
    requires Same(v, w)
    ensures Alike(v, w)
    decreases v
  {
    if v.Arr? && w.Arr? {
      forall i | 0 <= i < |v.items| ensures Alike(v.items[i], w.items[i]) {
        SameIsAlike(v.items[i], w.items[i]);
      }
    } else if v.Obj? && w.Obj? {
      forall k | k in Keys(v.entries) && k in Keys(w.entries) ensures Alike(Lookup(v, k), Lookup(w, k)) {
        SameIsAlike(Lookup(v, k), Lookup(w, k));
      }
    }
  }

  lemma {:induction false} AlikeIsSame(v: Value, w: Value)
    requires Alike(v, w) && Finite(v) && (NullFree(v) || Finite(w))
    ensures Same(v, w)
    decreases v
  {
    if v.Arr? && w.Arr? {
      forall i | 0 <= i < |v.items| ensures Same(v.items[i], w.items[i]) {
        AlikeIsSame(v.items[i], w.items[i]);
      }
    } else if v.Obj? && w.Obj? {
      forall k | k in Keys(v.entries) && k in Keys(w.entries) ensures Same(Lookup(v, k), Lookup(w, k)) {
        AlikeIsSame(Lookup(v, k), Lookup(w, k));
      }
    }
  }

  /** Every null made an infinity, and the other way round. */
  function Swapped(v: Value): Value {
    match v
    case Null => Infinite(false)
    case Infinite(_) => Null
    case Arr(items) => Arr(seq(|items|, i requires 0 <= i < |items| => Swapped(items[i])))
    case Obj(entries) =>
      Obj(seq(|entries|, i requires 0 <= i < |entries| => (entries[i].0, Swapped(entries[i].1))))
    case _ => v
  }

  lemma SwappedLookup(v: Value, k: string)
    requires v.Obj? && k in Keys(v.entries)
    ensures Keys(Swapped(v).entries) == Keys(v.entries) && Lookup(Swapped(v), k) == Swapped(Lookup(v, k))
  {
    assert Keys(Swapped(v).entries) == Keys(v.entries);
  }

  lemma {:induction false} SwappedAlike(v: Value)
    requires Json(v) && KeysOk(v)
    ensures Json(Swapped(v)) && KeysOk(Swapped(v)) && Alike(v, Swapped(v))
    ensures Same(v, Swapped(v)) ==> Finite(v) && NullFree(v)
  {
    match v
    case Arr(items) =>
      forall i | 0 <= i < |items|
        ensures var x := Swapped(items[i]); Json(x) && KeysOk(x) && Alike(items[i], x)
        ensures Same(items[i], Swapped(items[i])) ==> Finite(items[i]) && NullFree(items[i])
      {
        SwappedAlike(items[i]);
      }
    case Obj(entries) =>
      assert Keys(Swapped(v).entries) == Keys(entries);
      forall k | k in Keys(entries)
        ensures var x := Lookup(Swapped(v), k); Json(x) && KeysOk(x) && Alike(Lookup(v, k), x)
        ensures Same(Lookup(v, k), Lookup(Swapped(v), k)) ==> Finite(Lookup(v, k)) && NullFree(Lookup(v, k))
      {
        SwappedLookup(v, k);
        SwappedAlike(Lookup(v, k));
      }
    case _ =>
  }

  // ---- The text itself ----

  /** The parts with commas between them. */
  function Join(parts: seq<string>): string {
    if parts == [] then "" else parts[0] + (if |parts| == 1 then "" else "," + Join(parts[1..]))
  }

  /** An array is the texts of its items, in their order. */
  lemma ArrayText(v: Value, parts: seq<string>)
    requires v.Arr? && |parts| == |v.items| && forall i :: 0 <= i < |parts| ==> parts[i] == Print(v.items[i])
    ensures Print(v) == "[" + Join(parts) + "]"
  {
    ItemsJoined(v, parts, 0);
    assert parts[0..] == parts;
  }

  lemma {:induction false} ItemsJoined(v: Value, parts: seq<string>, i: nat)
    requires v.Arr? && |parts| == |v.items| && i <= |parts|
    requires forall j :: 0 <= j < |parts| ==> parts[j] == Print(v.items[j])
    ensures PrintItems(v, i) == Join(parts[i..])
    decreases |parts| - i
  {
    if i < |parts| {
      ItemsJoined(v, parts, i + 1);
      assert parts[i..][1..] == parts[i + 1..];
    }
  }

  /** An object is its fields in the lexicographic order of their keys, each a quoted key, a colon and the
      text of its value. */
  lemma ObjectText(v: Value, ks: seq<string>, vals: seq<Value>, parts: seq<string>)
    requires v.Obj? && Distinct(Keys(v.entries)) && |ks| == |vals| == |parts|
    requires forall i, j :: 0 <= i < j < |ks| ==> EarlierText(ks[i], ks[j])
    requires forall k :: k in ks <==> k in Keys(v.entries)
    requires forall i :: 0 <= i < |ks| ==> (ks[i], vals[i]) in v.entries
    requires forall i :: 0 <= i < |ks| ==> parts[i] == "\"" + ks[i] + "\":" + Print(vals[i])
    ensures Print(v) == "{" + Join(parts) + "}"
  {
    SortedKeys(Keys(v.entries), ks);
    forall i | 0 <= i < |ks|
      ensures ks[i] in Keys(v.entries) && parts[i] == FieldOf(v, ks[i])
    {
      FieldOfKey(v, ks[i], vals[i]);
    }
    FieldsJoined(v, ks, parts);
  }

  lemma SortedKeys(keys: seq<string>, ks: seq<string>)
    requires Distinct(keys) && forall k :: k in ks <==> k in keys
    requires forall i, j :: 0 <= i < j < |ks| ==> EarlierText(ks[i], ks[j])
    ensures SortKeys(keys) == ks
  {
    forall i, j | 0 <= i < j < |ks|
      ensures Less(ks[i], ks[j])
    {
      LessIsLexicographic(ks[i], ks[j]);
    }
    SortAscending(keys);
    AscendingUnique(ks, SortKeys(keys));
  }

  function FieldOf(v: Value, k: string): string
    requires v.Obj? && k in Keys(v.entries)
  {
    "\"" + (k + "\":" + Print(Lookup(v, k)))
  }

  lemma FieldOfKey(v: Value, k: string, val: Value)
    requires v.Obj? && Distinct(Keys(v.entries)) && (k, val) in v.entries
    ensures k in Keys(v.entries) && FieldOf(v, k) == "\"" + k + "\":" + Print(val)
  {
    var i :| 0 <= i < |v.entries| && v.entries[i] == (k, val);
    assert Keys(v.entries)[i] == k;
  }

  lemma {:induction false} FieldsJoined(v: Value, ks: seq<string>, parts: seq<string>)
    requires v.Obj? && |ks| == |parts| && forall k :: k in ks ==> k in Keys(v.entries)
    requires forall i :: 0 <= i < |ks| ==> parts[i] == FieldOf(v, ks[i])
    ensures PrintFields(v, ks) == Join(parts)
  {
    if ks != [] {
      FieldsJoined(v, ks[1..], parts[1..]);
      var rest := if |ks| == 1 then "" else "," + PrintFields(v, ks[1..]);
      assert "\"" + (ks[0] + "\":" + (Print(Lookup(v, ks[0])) + rest))
          == "\"" + (ks[0] + "\":" + Print(Lookup(v, ks[0]))) + rest;
    }
  }

  /** A text without quotes, backslashes and control characters stands between quotes as it is. */
  lemma PlainText(s: string)
    requires forall i :: 0 <= i < |s| ==> s[i] >= ' ' && s[i] != '\"' && s[i] != '\\'
    ensures Print(Str(s)) == "\"" + s + "\""
  {
    PlainEscape(s);
  }

  lemma {:induction false} PlainEscape(s: string)
    requires forall i :: 0 <= i < |s| ==> s[i] >= ' ' && s[i] != '\"' && s[i] != '\\'
    ensures Escape(s) == s
  {
    if s != "" {
      PlainEscape(s[1..]);
    }
  }

  // ---- Main results ----

  /** The text of JSON values whose keys are `KeyOk` is the same exactly if they are alike, and without
      infinities exactly if they are equal up to key order. One direction needs no condition. */
  lemma SameTextIff(v: Value, w: Value)
    requires Json(v) && Json(w)
    ensures Same(v, w) ==> Print(v) == Print(w)
    ensures KeysOk(v) && KeysOk(w) ==> (Print(v) == Print(w) <==> Alike(v, w))
    ensures KeysOk(v) && KeysOk(w) && Finite(v) && Finite(w) ==> (Print(v) == Print(w) <==> Same(v, w))
  {
    if Same(v, w) {
      SameIsAlike(v, w);
    }
    if Alike(v, w) {
      AlikePrintsSame(v, w);
    }
    if KeysOk(v) && KeysOk(w) && Print(v) == Print(w) {
      PrintCode(v, w, "", "");
      if Finite(v) && Finite(w) {
        AlikeIsSame(v, w);
      }
    }
  }

  /** A value has its text for itself exactly if it holds neither a null nor an infinity. */
  lemma OwnTextIff(v: Value)
    requires Json(v) && KeysOk(v)
    ensures (forall w :: Json(w) && KeysOk(w) && Print(w) == Print(v) ==> Same(v, w)) <==> Finite(v) && NullFree(v)
  {
    if Finite(v) && NullFree(v) {
      forall w | Json(w) && KeysOk(w) && Print(w) == Print(v)
        ensures Same(v, w)
      {
        PrintCode(v, w, "", "");
        AlikeIsSame(v, w);
      }
    } else {
      SwappedAlike(v);
      AlikePrintsSame(v, Swapped(v));
    }
  }

  /** `{"a": null}` and `{"a": 1e999}`. */
  lemma InfinityCollides()
    ensures var v, w := Obj([("a", Null)]), Obj([("a", Infinite(false))]);
            Json(v) && Json(w) && KeysOk(v) && KeysOk(w) && Print(v) == Print(w) && !Same(v, w)
  {
    var v := Obj([("a", Null)]);
    assert Swapped(v).entries == [("a", Infinite(false))];
    assert Keys(v.entries) == ["a"] && "a" in Keys(v.entries) && Lookup(v, "a") == Null;
    SwappedAlike(v);
    AlikePrintsSame(v, Swapped(v));
  }

  /** Keys without a quote are `KeyOk`. */
  lemma UnquotedKeyOk(k: string)
    requires '\"' !in k
    ensures KeyOk(k)
  {
  }

  /** Without the condition the other direction fails: `{"a\":1,\"b": 2}` and `{"a": 1, "b": 2}`. */
  lemma QuotedKeyCollides()
    ensures var v, w := Obj([("a\":1,\"b", Num("2"))]), Obj([("a", Num("1")), ("b", Num("2"))]);
            Json(v) && Json(w) && KeysOk(w) && Print(v) == Print(w) && !Same(v, w)
  {
    var k := "a\":1,\"b";
    var v, w := Obj([(k, Num("2"))]), Obj([("a", Num("1")), ("b", Num("2"))]);
    OneField(v, k);
    SameSpelling();
    TwoFields(w);
    KeysDiffer(v, w, k);
  }

  lemma KeysDiffer(v: Value, w: Value, k: string)
    requires v == Obj([(k, Num("2"))]) && w == Obj([("a", Num("1")), ("b", Num("2"))]) && k != "a" && k != "b"
    ensures Json(v) && Json(w) && KeysOk(w) && !Same(v, w)
  {
    assert Keys(v.entries) == [k] && Keys(w.entries) == ["a", "b"];
    assert k in Keys(v.entries) && k !in Keys(w.entries);
    assert Lookup(v, k) == Num("2") && "a" in Keys(w.entries) && "b" in Keys(w.entries);
    assert Lookup(w, "a") == Num("1") && Lookup(w, "b") == Num("2");
  }

  lemma SameSpelling()
    ensures "\"" + ("a\":1,\"b" + "\":" + "2") == "\"" + ("a" + "\":" + ("1" + ("," + ("\"" + ("b" + "\":" + "2")))))
  {
  }

  lemma OneField(v: Value, k: string)
    requires v == Obj([(k, Num("2"))])
    ensures Print(v) == "{" + ("\"" + (k + "\":" + "2")) + "}"
  {
    assert Keys(v.entries) == [k] && SortKeys([k]) == [k];
    assert PrintFields(v, [k]) == "\"" + (k + "\":" + ("2" + ""));
    assert "2" + "" == "2";
  }

  lemma TwoFields(w: Value)
    requires w == Obj([("a", Num("1")), ("b", Num("2"))])
    ensures Print(w) == "{" + ("\"" + ("a" + "\":" + ("1" + ("," + ("\"" + ("b" + "\":" + "2")))))) + "}"
  {
    var ks := ["a", "b"];
    assert Keys(w.entries) == ks;
    assert SortKeys(ks[1..][1..]) == [] && SortKeys(ks[1..]) == ["b"] && Less("a", "b") && SortKeys(ks) == ks;
    assert "b" in Keys(w.entries) && Lookup(w, "a") == Num("1") && Lookup(w, "b") == Num("2");
    assert PrintFields(w, ["b"]) == "\"" + ("b" + "\":" + ("2" + "")) && "2" + "" == "2";
    assert ks[1..] == ["b"];
    assert PrintFields(w, ks) == "\"" + ("a" + "\":" + ("1" + ("," + PrintFields(w, ["b"]))));
  }
}

/** The records of a Pokemon file, "x-y=quantity" a line, and what New and Catch do to them
    (operarNew, operarCatch of gamecard/src/mapeo.c, with keys compared exactly). */
module Records {
  import Arithmetic

  /** That many Pokemon of the file's species at (x, y). */
  datatype Record = Record(x: nat, y: nat, quantity: nat)

  // ---- Numbers ----

  predicate IsDigit(c: char) { '0' <= c <= '9' }

  function Digit(d: nat): (c: char)
    requires d < 10
    ensures IsDigit(c)
  {
    '0' + d as char
  }

  function Value(c: char): nat
    requires IsDigit(c)
  {
    c as nat - '0' as nat
  }

  /** %d */
  function Print(n: nat): (s: string)
    ensures s != "" && forall i :: 0 <= i < |s| ==> IsDigit(s[i])
  {
    if n < 10 then [Digit(n)] else Print(n / 10) + [Digit(n % 10)]
  }

  /** atoi, on digits */
  function Atoi(s: string): nat
    requires forall i :: 0 <= i < |s| ==> IsDigit(s[i])
  {
    if s == "" then 0 else 10 * Atoi(s[..|s| - 1]) + Value(s[|s| - 1])
  }

  lemma {:induction false} AtoiPrint(n: nat)
    ensures Atoi(Print(n)) == n
  {
    if n >= 10 {
      AtoiPrint(n / 10);
      assert Print(n)[..|Print(n)| - 1] == Print(n / 10);
    }
  }

  function Pow10(k: nat): (p: nat)
    ensures p > 0
  {
    if k == 0 then 1 else 10 * Pow10(k - 1)
  }

  /** The k-th digit from the right stands for as many times ten to the k as the number has, and
      there are as many digits as that takes. */
  lemma {:induction false} PrintDigits(n: nat, k: nat)
    requires k < |Print(n)|
    ensures var s := Print(n); s[|s| - 1 - k] as int - '0' as int == n / Pow10(k) % 10
    ensures n < Pow10(|Print(n)|) && (n > 0 ==> n >= Pow10(|Print(n)| - 1)) && (n == 0 ==> Print(n) == "0")
    decreases n
  {
    assert Pow10(1) == 10 && Pow10(0) == 1;
    if n >= 10 {
      var s, t := Print(n), Print(n / 10);
      assert s == t + [Digit(n % 10)];
      PrintDigits(n / 10, if k == 0 then 0 else k - 1);
      assert Pow10(|s|) == 10 * Pow10(|t|) && Pow10(|s| - 1) == 10 * Pow10(|t| - 1);
      if k > 0 {
        assert s[|s| - 1 - k] == t[|t| - 1 - (k - 1)];
        DivTwice(n, Pow10(k - 1));
      }
    }
  }

  lemma DivTwice(n: nat, p: nat)
    requires p > 0
    ensures n / 10 / p == n / (10 * p)
  {
    var q := n / (10 * p);
    var r := n - 10 * p * q;
    assert 0 <= r < 10 * p;
    assert n == 10 * (p * q) + r && n / 10 == p * q + r / 10 && 0 <= r / 10 < p;
    Arithmetic.DivUnique(n / 10, q, p, r / 10);
  }

  lemma {:induction false} PrintMono(a: nat, b: nat)
    requires a <= b
    ensures |Print(a)| <= |Print(b)|
    decreases b
  {
    if a >= 10 { PrintMono(a / 10, b / 10); }
  }

  // ---- Lines ----

  function Line(r: Record): string {
    Print(r.x) + "-" + Print(r.y) + "=" + Print(r.quantity) + "\n"
  }

  /** A record's text: three numbers with "-" and "=" between them, and the end of the line. */
  lemma LineText(r: Record)
    ensures var s, a, b, c := Line(r), |Print(r.x)|, |Print(r.y)|, |Print(r.quantity)|;
      && |s| == a + b + c + 3 && s[a] == '-' && s[a + 1 + b] == '=' && s[|s| - 1] == '\n'
      && s[..a] == Print(r.x) && s[a + 1..a + 1 + b] == Print(r.y) && s[a + b + 2..|s| - 1] == Print(r.quantity)
  {
    var s, x, y, q := Line(r), Print(r.x), Print(r.y), Print(r.quantity);
    hide Print, Line;
    assert s == x + ("-" + (y + ("=" + (q + "\n")))) by { LineIs(r); }
    assert s == x + "-" + (y + ("=" + (q + "\n")));
    assert s == x + "-" + y + "=" + (q + "\n");
  }

  lemma LineIs(r: Record)
    ensures Line(r) == Print(r.x) + ("-" + (Print(r.y) + ("=" + (Print(r.quantity) + "\n"))))
  {
  }

  function Render(rs: seq<Record>): string {
    if rs == [] then "" else Line(rs[0]) + Render(rs[1..])
  }

  /** How many digits the text starts with. */
  function DigitsAt(s: string): (n: nat)
    ensures n <= |s| && (forall i :: 0 <= i < n ==> IsDigit(s[i])) && (n < |s| ==> !IsDigit(s[n]))
  {
    if s == "" || !IsDigit(s[0]) then 0 else 1 + DigitsAt(s[1..])
  }

  /** The number before the next separator, and what follows it. */
  function Number(s: string): (r: (nat, string))
    ensures s != "" ==> |r.1| < |s|
  {
    var n := DigitsAt(s);
    (Atoi(s[..n]), if n < |s| then s[n + 1..] else "")
  }

  function Parse(s: string): seq<Record>
    decreases |s|
  {
    if s == "" then []
    else
      var (x, s1) := Number(s);
      var (y, s2) := Number(s1);
      var (q, s3) := Number(s2);
      assert s1 == "" ==> s2 == "";
      [Record(x, y, q)] + Parse(s3)
  }

  lemma NumberPrint(n: nat, c: char, rest: string)
    requires !IsDigit(c)
    ensures Number(Print(n) + [c] + rest) == (n, rest)
  {
    var s := Print(n) + [c] + rest;
    var k := DigitsAt(s);
    assert s[|Print(n)|] == c;
    assert forall i :: 0 <= i < |Print(n)| ==> s[i] == Print(n)[i];
    assert s[..k] == Print(n);
    AtoiPrint(n);
  }

  lemma ParseLine(r: Record, rest: string)
    ensures Parse(Line(r) + rest) == [r] + Parse(rest)
  {
    var s3 := rest;
    var s2 := Print(r.quantity) + ['\n'] + s3;
    var s1 := Print(r.y) + ['='] + s2;
    var s := Print(r.x) + ['-'] + s1;
    assert Line(r) + rest == s;
    NumberPrint(r.x, '-', s1);
    NumberPrint(r.y, '=', s2);
    NumberPrint(r.quantity, '\n', s3);
    hide Number, Print;
  }

  /** Reading the lines of a file gives back its records. */
  lemma {:induction false} ParseRender(rs: seq<Record>)
    ensures Parse(Render(rs)) == rs
  {
    if rs != [] {
      ParseLine(rs[0], Render(rs[1..]));
      ParseRender(rs[1..]);
    }
  }

  // ---- New and Catch ----

  /** The index of the record for (x, y), or the number of records. */
  function Find(rs: seq<Record>, x: nat, y: nat): (i: nat)
    ensures i <= |rs| && (i < |rs| ==> rs[i].x == x && rs[i].y == y)
    ensures forall j :: 0 <= j < i ==> rs[j].x != x || rs[j].y != y
  {
    if rs == [] || (rs[0].x == x && rs[0].y == y) then 0 else 1 + Find(rs[1..], x, y)
  }

  /** operarNew */
  function Add(rs: seq<Record>, x: nat, y: nat, quantity: nat): seq<Record> {
    var i := Find(rs, x, y);
    if i == |rs| then rs + [Record(x, y, quantity)]
    else rs[i := rs[i].(quantity := rs[i].quantity + quantity)]
  }

  /** operarCatch, for a record that is there. */
  function TakeOne(rs: seq<Record>, x: nat, y: nat): seq<Record>
    requires At(rs, x, y) >= 1
  {
    var i := Find(rs, x, y);
    if rs[i].quantity == 1 then rs[..i] + rs[i + 1..]
    else rs[i := rs[i].(quantity := rs[i].quantity - 1)]
  }

  /** Keys are unique and nothing is listed with quantity zero. */
  ghost predicate Proper(rs: seq<Record>) {
    && (forall i :: 0 <= i < |rs| ==> rs[i].quantity >= 1)
    && (forall i, j :: 0 <= i < j < |rs| ==> rs[i].x != rs[j].x || rs[i].y != rs[j].y)
  }

  /** How many Pokemon a file has at (x, y). */
  function At(rs: seq<Record>, x: nat, y: nat): nat {
    var i := Find(rs, x, y);
    if i == |rs| then 0 else rs[i].quantity
  }

  lemma FindIs(rs: seq<Record>, x: nat, y: nat, i: nat)
    requires Proper(rs) && i < |rs| && rs[i].x == x && rs[i].y == y
    ensures Find(rs, x, y) == i
  {
  }

  lemma FindNone(rs: seq<Record>, x: nat, y: nat)
    requires forall j :: 0 <= j < |rs| ==> rs[j].x != x || rs[j].y != y
    ensures Find(rs, x, y) == |rs|
  {
  }

  /** What there is at a position is the quantity of its record, and nothing when it has none. */
  lemma AtIs(rs: seq<Record>, x: nat, y: nat)
    requires Proper(rs)
    ensures forall i :: 0 <= i < |rs| && rs[i].x == x && rs[i].y == y ==> At(rs, x, y) == rs[i].quantity
    ensures (forall i :: 0 <= i < |rs| ==> rs[i].x != x || rs[i].y != y) ==> At(rs, x, y) == 0
  {
    hide Find;
    forall i | 0 <= i < |rs| && rs[i].x == x && rs[i].y == y ensures At(rs, x, y) == rs[i].quantity {
      FindIs(rs, x, y, i);
    }
  }

  /** A New adds to the record of its position where it stands, or puts a new one at the end. */
  lemma AddIs(rs: seq<Record>, x: nat, y: nat, quantity: nat)
    requires Proper(rs)
    ensures forall i :: 0 <= i < |rs| && rs[i].x == x && rs[i].y == y ==>
      Add(rs, x, y, quantity) == rs[..i] + [Record(x, y, rs[i].quantity + quantity)] + rs[i + 1..]
    ensures (forall i :: 0 <= i < |rs| ==> rs[i].x != x || rs[i].y != y) ==>
      Add(rs, x, y, quantity) == rs + [Record(x, y, quantity)]
  {
    hide Find;
    forall i | 0 <= i < |rs| && rs[i].x == x && rs[i].y == y
      ensures Add(rs, x, y, quantity) == rs[..i] + [Record(x, y, rs[i].quantity + quantity)] + rs[i + 1..]
    {
      FindIs(rs, x, y, i);
    }
  }

  /** A Catch lowers the record of its position where it stands, or takes it out when it was the
      last one. */
  lemma TakeIs(rs: seq<Record>, x: nat, y: nat)
    requires Proper(rs) && At(rs, x, y) >= 1
    ensures forall i :: 0 <= i < |rs| && rs[i].x == x && rs[i].y == y && rs[i].quantity > 1 ==>
      TakeOne(rs, x, y) == rs[..i] + [Record(x, y, rs[i].quantity - 1)] + rs[i + 1..]
    ensures forall i :: 0 <= i < |rs| && rs[i].x == x && rs[i].y == y && rs[i].quantity == 1 ==>
      TakeOne(rs, x, y) == rs[..i] + rs[i + 1..]
  {
    hide Find;
    forall i | 0 <= i < |rs| && rs[i].x == x && rs[i].y == y ensures Find(rs, x, y) == i {
      FindIs(rs, x, y, i);
    }
    var k := Find(rs, x, y);
    assert rs[k].quantity > 1 ==>
      TakeOne(rs, x, y) == rs[..k] + [Record(x, y, rs[k].quantity - 1)] + rs[k + 1..];
  }

  /** A New adds its Pokemon at its position and changes no other position. */
  lemma AddCounts(rs: seq<Record>, x: nat, y: nat, quantity: nat, u: nat, v: nat)
    requires Proper(rs) && quantity >= 1
    ensures Proper(Add(rs, x, y, quantity))
    ensures At(Add(rs, x, y, quantity), u, v) == At(rs, u, v) + (if u == x && v == y then quantity else 0)
  {
    hide Find;
    var a := Add(rs, x, y, quantity);
    var i := Find(rs, u, v);
    if i < |rs| {
      FindIs(a, u, v, i);
    } else if u == x && v == y {
      FindIs(a, u, v, |rs|);
    } else {
      FindNone(a, u, v);
    }
  }

  lemma LowerCounts(rs: seq<Record>, k: nat, u: nat, v: nat)
    requires Proper(rs) && k < |rs| && rs[k].quantity > 1
    ensures var t := rs[k := rs[k].(quantity := rs[k].quantity - 1)];
      Proper(t) && At(t, u, v) == At(rs, u, v) - (if u == rs[k].x && v == rs[k].y then 1 else 0)
  {
    hide Find;
    var t := rs[k := rs[k].(quantity := rs[k].quantity - 1)];
    var i := Find(rs, u, v);
    FindIs(rs, rs[k].x, rs[k].y, k);
    if i < |rs| { FindIs(t, u, v, i); } else { FindNone(t, u, v); }
  }

  lemma RemoveCounts(rs: seq<Record>, k: nat, u: nat, v: nat)
    requires Proper(rs) && k < |rs| && rs[k].quantity == 1
    ensures var t := rs[..k] + rs[k + 1..];
      Proper(t) && At(t, u, v) == At(rs, u, v) - (if u == rs[k].x && v == rs[k].y then 1 else 0)
  {
    hide Find;
    var t := rs[..k] + rs[k + 1..];
    assert forall j :: 0 <= j < |t| ==> t[j] == rs[if j < k then j else j + 1];
    var i := Find(rs, u, v);
    FindIs(rs, rs[k].x, rs[k].y, k);
    if i < k {
      FindIs(t, u, v, i);
    } else if k < i < |rs| {
      FindIs(t, u, v, i - 1);
    } else {
      FindNone(t, u, v);
    }
  }

  /** A Catch takes one Pokemon at its position and changes no other position. */
  lemma TakeCounts(rs: seq<Record>, x: nat, y: nat, u: nat, v: nat)
    requires Proper(rs) && At(rs, x, y) >= 1
    ensures Proper(TakeOne(rs, x, y))
    ensures At(TakeOne(rs, x, y), u, v) == At(rs, u, v) - (if u == x && v == y then 1 else 0)
  {
    var k := Find(rs, x, y);
    if rs[k].quantity > 1 { LowerCounts(rs, k, u, v); } else { RemoveCounts(rs, k, u, v); }
  }

  // ---- Lengths ----

  lemma {:induction false} RenderConcat(a: seq<Record>, b: seq<Record>)
    ensures Render(a + b) == Render(a) + Render(b)
  {
    if a == [] {
      assert a + b == b;
    } else {
      assert (a + b)[1..] == a[1..] + b;
      RenderConcat(a[1..], b);
    }
  }

  lemma RenderAt(rs: seq<Record>, i: nat)
    requires i < |rs|
    ensures |Render(rs)| == |Render(rs[..i])| + |Line(rs[i])| + |Render(rs[i + 1..])|
  {
    assert rs == rs[..i] + ([rs[i]] + rs[i + 1..]);
    RenderConcat(rs[..i], [rs[i]] + rs[i + 1..]);
    RenderConcat([rs[i]], rs[i + 1..]);
  }

  /** A New never makes the text shorter. */
  lemma AddGrows(rs: seq<Record>, x: nat, y: nat, quantity: nat)
    ensures |Render(Add(rs, x, y, quantity))| >= |Render(rs)| && Render(Add(rs, x, y, quantity)) != ""
  {
    var a, i := Add(rs, x, y, quantity), Find(rs, x, y);
    if i == |rs| {
      RenderConcat(rs, [Record(x, y, quantity)]);
    } else {
      RenderAt(rs, i);
      RenderAt(a, i);
      assert a[..i] == rs[..i] && a[i + 1..] == rs[i + 1..];
      PrintMono(rs[i].quantity, a[i].quantity);
    }
  }

  /** A Catch never makes it longer, and leaves nothing exactly when no record is left. */
  lemma TakeShrinks(rs: seq<Record>, x: nat, y: nat)
    requires At(rs, x, y) >= 1
    ensures |Render(TakeOne(rs, x, y))| <= |Render(rs)|
    ensures Render(TakeOne(rs, x, y)) == "" <==> TakeOne(rs, x, y) == []
  {
    var t, i := TakeOne(rs, x, y), Find(rs, x, y);
    RenderAt(rs, i);
    if rs[i].quantity == 1 {
      RenderConcat(rs[..i], rs[i + 1..]);
    } else if rs[i].quantity > 1 {
      RenderAt(t, i);
      assert t[..i] == rs[..i] && t[i + 1..] == rs[i + 1..];
      PrintMono(t[i].quantity, rs[i].quantity);
    }
  }
}

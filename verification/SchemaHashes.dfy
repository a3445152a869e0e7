/** The text under which a schema is filed: the number of its tokens and then the decimal id and
    arity of each, separated by blanks; and reading it back. */
module SchemaHashes {
  import opened Tokens

  function Digit(n: nat): (c: char)
    requires n < 10
    ensures '0' <= c <= '9' && c as int - '0' as int == n
  {
    (n + '0' as int) as char
  }

  predicate IsDigit(c: char) {
    '0' <= c <= '9'
  }

  function Decimal(n: nat): string {
    if n < 10 then [Digit(n)] else Decimal(n / 10) + [Digit(n % 10)]
  }

  // ---------------------------------------------------------------- writing

  function Serial(expr: seq<Token>): string {
    if expr == [] then ""
    else " " + Decimal(expr[0].id) + " " + Decimal(expr[0].arity) + Serial(expr[1..])
  }

  function Hash(expr: seq<Token>): string {
    Decimal(|expr|) + Serial(expr)
  }

  method HashExpr(expr: seq<Token>) returns (serial: string)
    ensures serial == Hash(expr)
  {
    serial := Decimal(|expr|);
    assert expr[0..] == expr;
    var i := 0;
    while i < |expr|
      invariant 0 <= i <= |expr| && serial + Serial(expr[i..]) == Hash(expr)
    {
      var tok := expr[i];
      assert expr[i..][1..] == expr[i + 1..];
      serial := serial + (" " + Decimal(tok.id) + " " + Decimal(tok.arity));
      i := i + 1;
    }
    assert expr[i..] == [];
  }

  // ---------------------------------------------------------------- reading

  /** Leading digits, appended to the number read so far. */
  function ReadDigits(s: string, acc: nat): (nat, string) {
    if s != "" && IsDigit(s[0]) then ReadDigits(s[1..], acc * 10 + (s[0] as int - '0' as int)) else (acc, s)
  }

  function SkipBlanks(s: string): string {
    if s != "" && s[0] == ' ' then SkipBlanks(s[1..]) else s
  }

  function ReadNumber(s: string): (nat, string) {
    ReadDigits(SkipBlanks(s), 0)
  }

  /** What follows does not continue a number. */
  predicate Ends(s: string) {
    s == "" || !IsDigit(s[0])
  }

  lemma {:induction false} ReadAfterDecimal(n: nat, more: string)
    ensures ReadDigits(Decimal(n) + more, 0) == ReadDigits(more, n)
    ensures Decimal(n) != "" && IsDigit(Decimal(n)[0])
    decreases n
  {
    if n < 10 {
      assert (Decimal(n) + more)[1..] == more;
    } else {
      var c := Digit(n % 10);
      ReadAfterDecimal(n / 10, [c] + more);
      assert Decimal(n) + more == Decimal(n / 10) + ([c] + more);
      assert ([c] + more)[1..] == more;
    }
  }

  lemma ReadsBack(n: nat, more: string)
    requires Ends(more)
    ensures ReadNumber(Decimal(n) + more) == (n, more)
    ensures ReadNumber(" " + Decimal(n) + more) == (n, more)
  {
    ReadAfterDecimal(n, more);
    assert (" " + Decimal(n) + more)[1..] == Decimal(n) + more;
  }

  lemma SerialEnds(expr: seq<Token>)
    ensures Ends(Serial(expr))
  {
  }

  lemma ReadsToken(expr: seq<Token>)
    requires expr != []
    ensures var (id, more) := ReadNumber(Serial(expr));
            id == expr[0].id && ReadNumber(more) == (expr[0].arity, Serial(expr[1..]))
  {
    var tail := " " + Decimal(expr[0].arity) + Serial(expr[1..]);
    SerialEnds(expr[1..]);
    ReadsBack(expr[0].arity, Serial(expr[1..]));
    ReadsBack(expr[0].id, tail);
    assert Serial(expr) == " " + Decimal(expr[0].id) + tail;
  }

  /** Reading a hash gives back the tokens it was made from. */
  method UnhashExpr(exprHash: string, ghost original: seq<Token>) returns (expr: seq<Token>)
    requires exprHash == Hash(original)
    ensures expr == original
  {
    SerialEnds(original);
    ReadsBack(|original|, Serial(original));
    var (exprSize, serial) := ReadNumber(exprHash);
    expr := [];
    var i := 0;
    assert original[0..] == original;
    while i < exprSize
      invariant 0 <= i <= exprSize == |original|
      invariant serial == Serial(original[i..]) && expr == original[..i]
    {
      ReadsToken(original[i..]);
      assert original[i..][1..] == original[i + 1..];
      var (id, serial1) := ReadNumber(serial);
      var (arity, serial2) := ReadNumber(serial1);
      expr, serial := expr + [Token(id, arity)], serial2;
      i := i + 1;
    }
  }

  lemma {:induction false} SerialInjective(a: seq<Token>, b: seq<Token>)
    requires |a| == |b| && Serial(a) == Serial(b)
    ensures a == b
    decreases |a|
  {
    if a != [] {
      ReadsToken(a);
      ReadsToken(b);
      SerialInjective(a[1..], b[1..]);
      assert a == [a[0]] + a[1..] && b == [b[0]] + b[1..];
    }
  }

  /** Different token sequences have different hashes. */
  lemma HashInjective(a: seq<Token>, b: seq<Token>)
    ensures Hash(a) == Hash(b) <==> a == b
  {
    if Hash(a) == Hash(b) {
      SerialEnds(a);
      SerialEnds(b);
      ReadsBack(|a|, Serial(a));
      ReadsBack(|b|, Serial(b));
      SerialInjective(a, b);
    }
  }
}

/** The composite keys of the property index (src/storage/local.rs, `make_property_index_key`). */
module IndexKeys {
  import opened Values

  const NUL: char := '\0'

  /** How the foreign library prints the kinds of value whose text this model does not follow. */
  type Printer = Value -> string

  ghost predicate NulFree(s: string) { NUL !in s }

  function Digit(d: nat): char
    requires d < 10
  {
    ['0', '1', '2', '3', '4', '5', '6', '7', '8', '9'][d]
  }

  function Digits(n: nat): string {
    if n < 10 then [Digit(n)] else Digits(n / 10) + [Digit(n % 10)]
  }

  function Decimal(i: int): string {
    if i < 0 then ['-'] + Digits(-i) else Digits(i)
  }

  function Canonical(fmt: Printer, v: Value): string {
    match v
    case String(s) => "s:" + s
    case Int(i) => "i:" + Decimal(i)
    case Float(_) => "f:" + fmt(v)
    case Bool(b) => if b then "b:true" else "b:false"
    case Null => "n:"
    case _ => "j:" + fmt(v)
  }

  /** The key of a registered index. */
  function RegKey(nodeType: string, field: string): string { nodeType + [NUL] + field }

  function Prefix(nodeType: string, field: string): string { nodeType + [NUL] + (field + [NUL]) }

  function Key(fmt: Printer, nodeType: string, field: string, v: Value): string {
    nodeType + [NUL] + (field + [NUL] + Canonical(fmt, v))
  }

  // ---------- decimal numbers print differently ----------

  function DigitValue(c: char): nat {
    if '0' <= c <= '9' then c as nat - '0' as nat else 0
  }

  function ReadDigits(s: string): nat {
    if s == [] then 0 else ReadDigits(s[..|s| - 1]) * 10 + DigitValue(s[|s| - 1])
  }

  lemma DigitReads(d: nat)
    requires d < 10
    ensures DigitValue(Digit(d)) == d && Digit(d) != '-'
  {
  }

  lemma {:induction false} ReadsBack(n: nat)
    ensures ReadDigits(Digits(n)) == n && |Digits(n)| > 0 && Digits(n)[0] != '-'
  {
    hide Digit, DigitValue;
    DigitReads(n % 10);
    if n < 10 {
      assert Digits(n)[..0] == [];
    } else {
      ReadsBack(n / 10);
      assert Digits(n)[..|Digits(n)| - 1] == Digits(n / 10);
    }
  }

  lemma DecimalInjective(i: int, j: int)
    requires Decimal(i) == Decimal(j)
    ensures i == j
  {
    ReadsBack(if i < 0 then -i else i);
    ReadsBack(if j < 0 then -j else j);
    assert i < 0 ==> Decimal(i)[1..] == Digits(-i);
    assert j < 0 ==> Decimal(j)[1..] == Digits(-j);
  }

  /** The values an index finds exactly: strings, integers and booleans. */
  predicate Scalar(v: Value) { v.String? || v.Int? || v.Bool? }

  /** A scalar shares its canonical text with no other value. */
  lemma CanonicalInjective(fmt: Printer, v: Value, w: Value)
    requires Scalar(v) && Canonical(fmt, v) == Canonical(fmt, w)
    ensures v == w
  {
    var a, b := Canonical(fmt, v), Canonical(fmt, w);
    assert a[0] == b[0];
    match v
    case String(s) => assert w.String? && a[2..] == s && b[2..] == w.s;
    case Int(i) =>
      assert w.Int? && a[2..] == Decimal(i) && b[2..] == Decimal(w.i);
      DecimalInjective(i, w.i);
    case Bool(x) => assert w.Bool? && (x ==> a[2] == 't') && (!x ==> a[2] == 'f');
  }

  // ---------- names without NUL can be read off a key ----------

  /** The first NUL ends the first name. */
  lemma SplitAtNul(a: string, x: string, b: string, y: string)
    requires NulFree(a) && NulFree(b) && a + [NUL] + x == b + [NUL] + y
    ensures a == b && x == y
  {
    var s, t := a + [NUL] + x, b + [NUL] + y;
    assert forall i :: 0 <= i < |a| ==> s[i] == a[i] && a[i] in a;
    assert forall i :: 0 <= i < |b| ==> t[i] == b[i] && b[i] in b;
    assert s[|a|] == NUL && t[|b|] == NUL;
    assert |a| == |b|;
    assert s[..|a|] == a && t[..|b|] == b;
    assert s[|a| + 1..] == x && t[|b| + 1..] == y;
  }

  /** For NUL-free names and a scalar, the key determines type, field and value. */
  lemma KeyInjective(fmt: Printer, ty: string, f: string, v: Value, ty': string, f': string, v': Value)
    requires NulFree(ty) && NulFree(f) && NulFree(ty') && NulFree(f')
    requires Key(fmt, ty, f, v) == Key(fmt, ty', f', v')
    ensures ty == ty' && f == f' && (Scalar(v) ==> v == v')
  {
    SplitAtNul(ty, f + [NUL] + Canonical(fmt, v), ty', f' + [NUL] + Canonical(fmt, v'));
    SplitAtNul(f, Canonical(fmt, v), f', Canonical(fmt, v'));
    if Scalar(v) { CanonicalInjective(fmt, v, v'); }
  }

  /** A key starts with an index's prefix exactly when it belongs to that index. */
  lemma PrefixExact(fmt: Printer, ty: string, f: string, ty': string, f': string, v: Value)
    requires NulFree(ty) && NulFree(f) && NulFree(ty') && NulFree(f')
    ensures Prefix(ty, f) <= Key(fmt, ty', f', v) <==> ty == ty' && f == f'
  {
    var p, c := Prefix(ty, f), Canonical(fmt, v);
    hide Canonical;
    var k := Key(fmt, ty', f', v);
    if p <= k {
      Reassociate(ty, f, k[|p|..]);
      assert k == p + k[|p|..];
      SplitAtNul(ty, f + [NUL] + k[|p|..], ty', f' + [NUL] + c);
      SplitAtNul(f, k[|p|..], f', c);
    }
    if ty == ty' && f == f' {
      Reassociate(ty, f, c);
    }
  }

  lemma Reassociate(ty: string, f: string, rest: string)
    ensures Prefix(ty, f) + rest == ty + [NUL] + (f + [NUL] + rest)
  {
  }

  /** A registered name starts with `ty` and NUL exactly when its type is `ty`. */
  lemma RegPrefixExact(ty: string, ty': string, f': string)
    requires NulFree(ty) && NulFree(ty')
    ensures ty + [NUL] <= RegKey(ty', f') <==> ty == ty'
    ensures ty == ty' ==> RegKey(ty', f')[|ty| + 1..] == f'
  {
    var k := RegKey(ty', f');
    if ty + [NUL] <= k {
      assert k == ty + [NUL] + k[|ty| + 1..];
      SplitAtNul(ty, k[|ty| + 1..], ty', f');
    }
  }

  lemma RegKeyInjective(ty: string, f: string, ty': string, f': string)
    requires NulFree(ty) && NulFree(ty') && RegKey(ty, f) == RegKey(ty', f')
    ensures ty == ty' && f == f'
  {
    SplitAtNul(ty, f, ty', f');
  }

  /** With NUL allowed in names, two different indexes can share a key. */
  lemma NulNamesCollide(fmt: Printer, v: Value)
    ensures Key(fmt, "a\0b", "c", v) == Key(fmt, "a", "b\0c", v)
  {
    assert "a\0b" + [NUL] + ("c" + [NUL] + Canonical(fmt, v)) == "a" + [NUL] + ("b\0c" + [NUL] + Canonical(fmt, v));
  }
}

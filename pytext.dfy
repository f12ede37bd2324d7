/** The few pieces of Python's text handling that the constraint parser relies
    on: `str.split(sep)`, `str.split()`, the substring test `sub in s`,
    `str.lower()`, `int(text)`, `Fraction(text)` and list indexing with
    negative indices. */
module PyText {
  import opened Outcomes

  // ---------------------------------------------------------------------
  // str.split(sep) with a one-character separator, and its inverse

  /** `sep.join(parts)`. */
  function Join(parts: seq<string>, sep: char): string
    requires |parts| >= 1
  {
    if |parts| == 1 then parts[0] else parts[0] + [sep] + Join(parts[1..], sep)
  }

  /** `s.split(sep)`: every occurrence of `sep` cuts, empty pieces are kept. */
  function Split(s: string, sep: char): (r: seq<string>)
    ensures |r| >= 1
  {
    if s == [] then [""]
    else
      var rest := Split(s[1..], sep);
      if s[0] == sep then [""] + rest
      else [[s[0]] + rest[0]] + rest[1..]
  }

  /** The pieces hold no separator, and joining them gives the text back. */
  lemma {:induction false} SplitSpells(s: string, sep: char)
    ensures forall k :: 0 <= k < |Split(s, sep)| ==> sep !in Split(s, sep)[k]
    ensures Join(Split(s, sep), sep) == s
  {
    if s != [] {
      var rest := Split(s[1..], sep);
      SplitSpells(s[1..], sep);
      if s[0] == sep {
        assert [sep] + Join(rest, sep) == s;
        assert ([""] + rest)[1..] == rest;
      } else {
        var r := [[s[0]] + rest[0]] + rest[1..];
        assert r[1..] == rest[1..];
        assert Join(r, sep) == [s[0]] + Join(rest, sep) by {
          if |rest| > 1 {
            assert Join(r, sep) == ([s[0]] + rest[0]) + [sep] + Join(rest[1..], sep);
          }
        }
        forall k | 0 <= k < |r| ensures sep !in r[k] {
          if k > 0 {
            assert r[k] == rest[k];
          }
        }
      }
    }
  }

  /** Splitting a join gives the parts back, provided no part holds the
      separator: the other half of the round trip. */
  lemma {:induction false} SplitJoin(parts: seq<string>, sep: char)
    requires |parts| >= 1
    requires forall k :: 0 <= k < |parts| ==> sep !in parts[k]
    ensures Split(Join(parts, sep), sep) == parts
  {
    if |parts| == 1 {
      SplitNoSep(parts[0], sep);
    } else {
      SplitJoin(parts[1..], sep);
      SplitPrefix(parts[0], Join(parts[1..], sep), sep);
      assert parts == [parts[0]] + parts[1..];
    }
  }

  lemma {:induction false} SplitNoSep(s: string, sep: char)
    requires sep !in s
    ensures Split(s, sep) == [s]
  {
    if s != [] {
      SplitNoSep(s[1..], sep);
      assert [s[0]] + s[1..] == s;
    }
  }

  lemma {:induction false} SplitPrefix(p: string, t: string, sep: char)
    requires sep !in p
    ensures Split(p + [sep] + t, sep) == [p] + Split(t, sep)
  {
    if p == [] {
      assert p + [sep] + t == [sep] + t;
      assert ([sep] + t)[1..] == t;
    } else {
      var s := p + [sep] + t;
      assert s[1..] == p[1..] + [sep] + t;
      SplitPrefix(p[1..], t, sep);
      assert [p[0]] + p[1..] == p;
    }
  }

  // ---------------------------------------------------------------------
  // str.split() with no argument: runs of white space separate, empty
  // pieces are dropped

  predicate IsSpace(c: char)
  {
    c == ' ' || c == '\t' || c == '\n' || c == '\r' || c == '\U{000B}' || c == '\U{000C}'
  }

  function NonSpace(s: string): string
  {
    if s == [] then [] else (if IsSpace(s[0]) then [] else [s[0]]) + NonSpace(s[1..])
  }

  function Concat(words: seq<string>): string
  {
    if words == [] then [] else words[0] + Concat(words[1..])
  }

  /** `s.split()`: every word is non-empty and free of white space, and the
      words spell out `s` with its white space removed. */
  function Words(s: string): (r: seq<string>)
    ensures forall k :: 0 <= k < |r| ==> r[k] != []
    ensures forall k, j :: 0 <= k < |r| && 0 <= j < |r[k]| ==> !IsSpace(r[k][j])
    ensures s != [] && !IsSpace(s[0]) ==> |r| >= 1 && r[0][0] == s[0]
  {
    if s == [] then []
    else if IsSpace(s[0]) then Words(s[1..])
    else
      var rest := Words(s[1..]);
      if |s| > 1 && !IsSpace(s[1]) then
        [[s[0]] + rest[0]] + rest[1..]
      else
        [[s[0]]] + rest
  }

  /** The words spell out `s` with its white space removed. */
  lemma {:induction false} WordsSpellText(s: string)
    ensures Concat(Words(s)) == NonSpace(s)
  {
    if s != [] {
      WordsSpellText(s[1..]);
      var rest := Words(s[1..]);
      if !IsSpace(s[0]) {
        if |s| > 1 && !IsSpace(s[1]) {
          var r := [[s[0]] + rest[0]] + rest[1..];
          assert r[1..] == rest[1..];
          assert Concat(rest) == rest[0] + Concat(rest[1..]);
          assert Concat(r) == [s[0]] + rest[0] + Concat(rest[1..]);
        } else {
          assert Concat([[s[0]]] + rest) == [s[0]] + Concat(rest) by {
            assert ([[s[0]]] + rest)[1..] == rest;
          }
        }
      }
    }
  }

  // ---------------------------------------------------------------------
  // The substring test `sub in s`

  predicate OccursAt(s: string, sub: string, i: nat)
  {
    i + |sub| <= |s| && s[i..i + |sub|] == sub
  }

  function Contains(s: string, sub: string): bool
  {
    (|sub| <= |s| && s[..|sub|] == sub) || (s != [] && Contains(s[1..], sub))
  }

  /** A match found by the scan sits at some position. */
  lemma {:induction false} ContainsHasPosition(s: string, sub: string)
    requires Contains(s, sub)
    ensures exists i: nat :: OccursAt(s, sub, i)
  {
    if |sub| <= |s| && s[..|sub|] == sub {
      assert OccursAt(s, sub, 0);
    } else {
      ContainsHasPosition(s[1..], sub);
      var i: nat :| OccursAt(s[1..], sub, i);
      assert s[1..][i..i + |sub|] == s[i + 1..i + 1 + |sub|];
      assert OccursAt(s, sub, i + 1);
    }
  }

  /** An occurrence at any position is found by the scan. */
  lemma {:induction false} PositionIsContained(s: string, sub: string, i: nat)
    requires OccursAt(s, sub, i)
    ensures Contains(s, sub)
  {
    if i > 0 {
      assert s[1..][i - 1..i - 1 + |sub|] == s[i..i + |sub|];
      PositionIsContained(s[1..], sub, i - 1);
    } else {
      assert s[0..|sub|] == s[..|sub|];
    }
  }

  /** The scanning definition of `sub in s` agrees with "occurs at some
      position", in both directions. */
  lemma ContainsIff(s: string, sub: string)
    ensures Contains(s, sub) <==> exists i: nat :: OccursAt(s, sub, i)
  {
    if Contains(s, sub) {
      ContainsHasPosition(s, sub);
    }
    if exists i: nat :: OccursAt(s, sub, i) {
      var i: nat :| OccursAt(s, sub, i);
      PositionIsContained(s, sub, i);
    }
  }

  /** Every string that holds "<=" or ">=" also holds "=". */
  lemma RelationHoldsEquals(s: string, op: string)
    requires op == "<=" || op == ">="
    requires Contains(s, op)
    ensures Contains(s, "=")
  {
    ContainsIff(s, op);
    var i: nat :| OccursAt(s, op, i);
    assert s[i + 1..i + 2] == s[i..i + 2][1..];
    assert OccursAt(s, "=", i + 1);
    ContainsIff(s, "=");
  }

  // ---------------------------------------------------------------------
  // str.lower() on ASCII letters

  function LowerChar(c: char): char
  {
    if 'A' <= c <= 'Z' then (c as int + 32) as char else c
  }

  function Lower(s: string): (r: string)
    ensures |r| == |s|
  {
    seq(|s|, i requires 0 <= i < |s| => LowerChar(s[i]))
  }

  // ---------------------------------------------------------------------
  // int(text) and Fraction(text), limited to plain decimal literals

  predicate IsDigit(c: char)
  {
    '0' <= c <= '9'
  }

  predicate AllDigits(s: string)
  {
    forall k :: 0 <= k < |s| ==> IsDigit(s[k])
  }

  /** The value of a digit string, most significant digit first. */
  function DigitsValue(s: string): nat
    requires AllDigits(s)
  {
    if s == [] then 0 else DigitsValue(s[..|s| - 1]) * 10 + (s[|s| - 1] as int - '0' as int)
  }

  /** An unsigned decimal literal. */
  function ParseNat(s: string): (r: Option<nat>)
    ensures r.Some? <==> s != [] && AllDigits(s)
  {
    if s != [] && AllDigits(s) then Some(DigitsValue(s)) else None
  }

  /** The decimal spelling of `n`, with no leading zeros. */
  function ShowNat(n: nat): (r: string)
    ensures r != [] && AllDigits(r)
  {
    var d := [('0' as int + n % 10) as char];
    if n < 10 then d else ShowNat(n / 10) + d
  }

  /** Reading back the spelling of a number gives the number. */
  lemma {:induction false} ParseShowNat(n: nat)
    ensures ParseNat(ShowNat(n)) == Some(n)
  {
    var s := ShowNat(n);
    assert s[|s| - 1] as int - '0' as int == n % 10;
    if n >= 10 {
      ParseShowNat(n / 10);
      assert s[..|s| - 1] == ShowNat(n / 10);
    } else {
      assert s[..|s| - 1] == [];
      assert DigitsValue(s) == DigitsValue(s[..|s| - 1]) * 10 + n % 10;
    }
  }

  /** `int(text)`: an optional sign followed by decimal digits. */
  function ParseInt(s: string): (r: Option<int>)
  {
    if |s| > 0 && (s[0] == '-' || s[0] == '+') then
      match ParseNat(s[1..])
      case None => None
      case Some(n) =>
        var v: int := if s[0] == '-' then -(n as int) else n;
        Some(v)
    else
      match ParseNat(s)
      case None => None
      case Some(n) => Some(n)
  }

  function ShowInt(i: int): string
  {
    if i < 0 then "-" + ShowNat(-i) else ShowNat(i)
  }

  lemma ParseShowInt(i: int)
    ensures ParseInt(ShowInt(i)) == Some(i)
  {
    if i < 0 {
      ParseShowNat(-i);
      assert ShowInt(i)[1..] == ShowNat(-i);
    } else {
      ParseShowNat(i);
    }
  }

  /** -1 for a leading minus sign, 1 otherwise. */
  function SignOf(s: string): real
  {
    if |s| > 0 && s[0] == '-' then -1.0 else 1.0
  }

  /** The text after an optional leading sign. */
  function Unsigned(s: string): string
  {
    if |s| > 0 && (s[0] == '-' || s[0] == '+') then s[1..] else s
  }

  /** `Fraction(text)`: an optional sign, decimal digits, and optionally a
      slash and a non-zero decimal denominator. */
  function ParseFraction(s: string): (r: Option<real>)
  {
    var sign := SignOf(s);
    var parts := Split(Unsigned(s), '/');
    if |parts| == 1 then
      match ParseNat(parts[0])
      case None => None
      case Some(n) => Some(sign * n as real)
    else if |parts| == 2 then
      match (ParseNat(parts[0]), ParseNat(parts[1]))
      case (Some(n), Some(d)) => if d == 0 then None else Some(sign * (n as real / d as real))
      case _ => None
    else None
  }

  lemma NoSlashInDigits(s: string)
    requires AllDigits(s)
    ensures '/' !in s
  {
    forall k | 0 <= k < |s|
      ensures s[k] != '/'
    {
      assert IsDigit(s[k]);
    }
  }

  /** Digits, with or without a leading minus sign, read back as the number
      they spell or its negation. */
  lemma ParseFractionSigned(n: nat, negate: bool)
    ensures ParseFraction((if negate then "-" else "") + ShowNat(n))
         == Some(if negate then -(n as real) else n as real)
  {
    var s := (if negate then "-" else "") + ShowNat(n);
    SignedDigits(s, ShowNat(n), negate);
    NoSlashInDigits(ShowNat(n));
    SplitNoSep(ShowNat(n), '/');
    ParseShowNat(n);
    ParseFractionOfWhole(s, ShowNat(n));
  }

  /** A sign followed by digits: the sign is read and the digits remain. */
  lemma SignedDigits(s: string, digits: string, negate: bool)
    requires digits != [] && AllDigits(digits)
    requires s == (if negate then "-" else "") + digits
    ensures Unsigned(s) == digits
    ensures SignOf(s) == if negate then -1.0 else 1.0
  {
    assert IsDigit(digits[0]);
    if negate {
      assert s[1..] == digits;
    } else {
      assert s == digits;
    }
  }

  /** `Fraction` of a signed ratio of two digit strings. */
  lemma ParseFractionOfRatio(s: string, a: string, b: string)
    requires Split(Unsigned(s), '/') == [a, b]
    requires ParseNat(a).Some? && ParseNat(b).Some? && ParseNat(b).value != 0
    ensures ParseFraction(s) == Some(SignOf(s) * (ParseNat(a).value as real / ParseNat(b).value as real))
  {
  }

  /** `Fraction` of a signed digit string. */
  lemma ParseFractionOfWhole(s: string, a: string)
    requires Split(Unsigned(s), '/') == [a]
    requires ParseNat(a).Some?
    ensures ParseFraction(s) == Some(SignOf(s) * ParseNat(a).value as real)
  {
  }

  /** Digits read back by `int(text)` as the number they spell. */
  lemma ParseIntNat(n: nat)
    ensures ParseInt(ShowNat(n)) == Some(n)
  {
    ParseShowNat(n);
    assert IsDigit(ShowNat(n)[0]);
  }

  /** Digits with "/1" appended, as the objective parser builds them, read
      back as the number they spell or its negation. */
  lemma ParseFractionSignedSlashOne(n: nat, negate: bool)
    ensures ParseFraction((if negate then "-" else "") + ShowNat(n) + "/1")
         == Some(if negate then -(n as real) else n as real)
  {
    var s := (if negate then "-" else "") + ShowNat(n) + "/1";
    assert s == (if negate then "-" else "") + (ShowNat(n) + "/1");
    SignedDigitsSlashOne(s, n, negate);
    SplitOverOne(n);
    ParseShowNat(n);
    assert ParseNat("1") == Some(1) by {
      ParseShowNat(1);
      assert ShowNat(1) == "1";
    }
    ParseFractionOfRatio(s, ShowNat(n), "1");
  }

  lemma SignedDigitsSlashOne(s: string, n: nat, negate: bool)
    requires s == (if negate then "-" else "") + (ShowNat(n) + "/1")
    ensures Unsigned(s) == ShowNat(n) + "/1"
    ensures SignOf(s) == if negate then -1.0 else 1.0
  {
    assert IsDigit(ShowNat(n)[0]);
    if negate {
      assert s[1..] == ShowNat(n) + "/1";
    } else {
      assert s == ShowNat(n) + "/1";
    }
  }

  lemma SplitOverOne(n: nat)
    ensures Split(ShowNat(n) + "/1", '/') == [ShowNat(n), "1"]
  {
    NoSlashInDigits(ShowNat(n));
    SplitJoin([ShowNat(n), "1"], '/');
    assert [ShowNat(n), "1"][1..] == ["1"];
    assert Join([ShowNat(n), "1"], '/') == ShowNat(n) + "/1";
  }

  /** `p/q` reads back as the quotient. */
  lemma ParseFractionRatio(p: nat, q: nat)
    requires q > 0
    ensures ParseFraction(ShowNat(p) + "/" + ShowNat(q)) == Some(p as real / q as real)
  {
    ParseShowNat(p);
    ParseShowNat(q);
    NoSlashInDigits(ShowNat(p));
    NoSlashInDigits(ShowNat(q));
    SplitJoin([ShowNat(p), ShowNat(q)], '/');
    assert Join([ShowNat(p), ShowNat(q)], '/') == ShowNat(p) + "/" + ShowNat(q);
  }

  /** What `Fraction(text + "/1")` accepts is always a whole number, so the
      objective parser reads integer coefficients only. */
  lemma SlashOneIsWhole(t: string)
    requires ParseFraction(t + "/1").Some?
    ensures var v := ParseFraction(t + "/1").value; v == v.Floor as real
  {
    var s := t + "/1";
    var body := Unsigned(s);
    assert |body| >= 2 && body[|body| - 2..] == "/1" by {
      if |t| == 0 {
        assert s == "/1";
      } else {
        assert s[|s| - 2..] == "/1";
      }
    }
    LastPieceOfSlashOne(body, '/');
    FractionOverOne(s);
  }

  /** A fraction whose last piece is the denominator 1 is whole. */
  lemma FractionOverOne(s: string)
    requires ParseFraction(s).Some?
    requires var p := Split(Unsigned(s), '/'); |p| >= 2 && p[|p| - 1] == "1"
    ensures var v := ParseFraction(s).value; v == v.Floor as real
  {
    var parts := Split(Unsigned(s), '/');
    assert |parts| == 2;
    var n := ParseNat(parts[0]).value;
    assert ParseNat(parts[1]) == Some(1) by {
      ParseShowNat(1);
      assert ShowNat(1) == "1";
    }
    var v := ParseFraction(s).value;
    assert v == SignOf(s) * (n as real / 1 as real);
    var whole: int := if SignOf(s) == 1.0 then n as int else -(n as int);
    assert v == whole as real;
  }

  /** A string ending in "/1" splits on '/' with "1" as its last piece. */
  lemma {:induction false} LastPieceOfSlashOne(body: string, sep: char)
    requires sep == '/'
    requires |body| >= 2 && body[|body| - 2..] == "/1"
    ensures var r := Split(body, sep); |r| >= 2 && r[|r| - 1] == "1"
  {
    if |body| == 2 {
      assert body == "/1";
      assert body[1..] == "1";
      SplitNoSep("1", sep);
    } else {
      assert body[1..][|body[1..]| - 2..] == "/1";
      LastPieceOfSlashOne(body[1..], sep);
    }
  }

  // ---------------------------------------------------------------------
  // Python list indexing: `xs[k]` for a list of length n

  /** The position `xs[k]` denotes in a list of length `n`, if any: negative
      indices count from the end, anything else raises IndexError. */
  function PyIndex(k: int, n: nat): (r: Option<nat>)
    ensures r.Some? <==> -(n as int) <= k < n
    ensures r.Some? ==> r.value < n && (k >= 0 ==> r.value == k) && (k < 0 ==> r.value == n + k)
  {
    if 0 <= k < n then Some(k) else if -(n as int) <= k < 0 then Some(n + k) else None
  }
}

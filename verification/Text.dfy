/**
  The few string operations of the host language that the collector relies on: `split` and
  `join` with a one-character separator, `find`, `rfind`, `split` with a longer separator,
  and the decimal text of an integer together with its reader.
 */
module Text {
  import opened Basics

  // ---------- split and join with one character ----------

  function Split(s: string, c: char): (parts: seq<string>)
    ensures |parts| >= 1
  {
    if s == "" then [""]
    else
      var rest := Split(s[1..], c);
      if s[0] == c then [""] + rest else [[s[0]] + rest[0]] + rest[1..]
  }

  function Join(parts: seq<string>, c: char): string
  {
    if parts == [] then ""
    else if |parts| == 1 then parts[0]
    else parts[0] + [c] + Join(parts[1..], c)
  }

  /** Splitting text that has no separator gives the text itself. */
  lemma {:induction false} SplitWithout(s: string, c: char)
    requires c !in s
    ensures Split(s, c) == [s]
  {
    if s != "" {
      SplitWithout(s[1..], c);
      assert s == [s[0]] + s[1..];
    }
  }

  /** The first piece ends at the first separator. */
  lemma {:induction false} SplitFirst(a: string, c: char, rest: string)
    requires c !in a
    ensures Split(a + [c] + rest, c) == [a] + Split(rest, c)
  {
    var s := a + [c] + rest;
    if a == "" {
      assert s[1..] == rest;
    } else {
      assert s[1..] == a[1..] + [c] + rest;
      SplitFirst(a[1..], c, rest);
      assert a == [a[0]] + a[1..];
    }
  }

  /** `split` undoes `join` on pieces that do not hold the separator. */
  lemma {:induction false} SplitJoin(parts: seq<string>, c: char)
    requires parts != []
    requires forall p :: p in parts ==> c !in p
    ensures Split(Join(parts, c), c) == parts
  {
    if |parts| == 1 {
      SplitWithout(parts[0], c);
    } else {
      SplitJoin(parts[1..], c);
      SplitFirst(parts[0], c, Join(parts[1..], c));
      assert parts == [parts[0]] + parts[1..];
    }
  }

  lemma JoinBehindEmpty(rest: seq<string>, c: char)
    requires rest != []
    ensures Join([""] + rest, c) == [c] + Join(rest, c)
  {
    assert ([""] + rest)[1..] == rest;
  }

  lemma JoinGrown(x: char, rest: seq<string>, c: char)
    requires rest != []
    ensures Join([[x] + rest[0]] + rest[1..], c) == [x] + Join(rest, c)
  {
    var grown := [[x] + rest[0]] + rest[1..];
    assert grown[1..] == rest[1..];
    if |rest| > 1 {
      assert Join(grown, c) == [x] + (rest[0] + [c] + Join(rest[1..], c));
    }
  }

  /** No piece of a split holds the separator. */
  lemma {:induction false} PiecesAreFree(s: string, c: char)
    ensures forall i :: 0 <= i < |Split(s, c)| ==> c !in Split(s, c)[i]
  {
    if s != "" {
      PiecesAreFree(s[1..], c);
    }
  }

  lemma {:induction false} JoinOfSplit(s: string, c: char)
    ensures Join(Split(s, c), c) == s
  {
    if s != "" {
      JoinOfSplit(s[1..], c);
      if s[0] == c {
        JoinBehindEmpty(Split(s[1..], c), c);
      } else {
        JoinGrown(s[0], Split(s[1..], c), c);
      }
    }
  }

  /** `join` undoes `split`, and no piece holds the separator. */
  lemma JoinSplit(s: string, c: char)
    ensures Join(Split(s, c), c) == s
    ensures forall p :: p in Split(s, c) ==> c !in p
  {
    JoinOfSplit(s, c);
    PiecesAreFree(s, c);
  }

  /** Joining two non-empty lists. */
  lemma {:induction false} JoinAppend(a: seq<string>, b: seq<string>, c: char)
    requires a != [] && b != []
    ensures Join(a + b, c) == Join(a, c) + [c] + Join(b, c)
  {
    if |a| == 1 {
      assert (a + b)[1..] == b;
    } else {
      assert (a + b)[1..] == a[1..] + b;
      JoinAppend(a[1..], b, c);
      assert Join(a + b, c) == a[0] + [c] + Join(a[1..] + b, c);
    }
  }

  lemma SplitWith(s: string, c: char)
    requires c in s
    ensures |Split(s, c)| > 1
  {
    JoinSplit(s, c);
    var first := Split(s, c)[0];
    assert c !in first;
  }

  /** The piece after the last separator. */
  function LastPiece(s: string, c: char): (piece: string)
  {
    if c !in s then s else LastPiece(s[1..], c)
  }

  /** `LastPiece` is the last element of the split. */
  lemma {:induction false} LastPieceIsLastOfSplit(s: string, c: char)
    ensures var parts := Split(s, c); LastPiece(s, c) == parts[|parts| - 1]
    ensures c !in LastPiece(s, c)
  {
    if c !in s {
      SplitWithout(s, c);
    } else {
      LastPieceIsLastOfSplit(s[1..], c);
      if s[0] != c {
        SplitWith(s[1..], c);
      }
    }
  }

  lemma {:induction false} LastPieceIsSuffix(s: string, c: char)
    ensures LastPiece(s, c) == s || exists before :: s == before + [c] + LastPiece(s, c)
  {
    if c in s {
      LastPieceIsSuffix(s[1..], c);
      var last := LastPiece(s[1..], c);
      if before :| s[1..] == before + [c] + last {
        assert s == ([s[0]] + before) + [c] + last;
      } else {
        assert s == [] + [s[0]] + s[1..];
        assert c !in s[1..] by {
          LastPieceIsLastOfSplit(s[1..], c);
        }
      }
    }
  }

  lemma {:induction false} LastPieceAfter(a: string, c: char, b: string)
    requires c !in b
    ensures LastPiece(a + [c] + b, c) == b
    decreases |a|
  {
    var s := a + [c] + b;
    assert s[|a|] == c;
    if a == "" {
      assert s[1..] == b;
    } else {
      assert s[1..] == a[1..] + [c] + b;
      LastPieceAfter(a[1..], c, b);
    }
  }

  /** How much text stands before the first `c`; all of it when there is none. */
  function Before(s: string, c: char): (n: nat)
    ensures n <= |s|
    ensures n < |s| ==> s[n] == c
    ensures c !in s[..n]
  {
    if s == "" || s[0] == c then 0
    else
      var n := Before(s[1..], c);
      assert s[..n + 1] == [s[0]] + s[1..][..n];
      n + 1
  }

  lemma {:induction false} BeforeMarker(a: string, c: char, rest: string)
    requires c !in a
    ensures Before(a + [c] + rest, c) == |a|
  {
    if a != "" {
      assert (a + [c] + rest)[1..] == a[1..] + [c] + rest;
      BeforeMarker(a[1..], c, rest);
    }
  }

  // ---------- substring search ----------

  ghost predicate OccursAt(s: string, t: string, i: int)
  {
    0 <= i && i + |t| <= |s| && s[i..i + |t|] == t
  }

  function FindFrom(s: string, t: string, k: nat): (i: int)
    requires k <= |s|
    ensures i == -1 || (k <= i && OccursAt(s, t, i))
    ensures forall j :: k <= j < (if i == -1 then |s| + 1 else i) ==> !OccursAt(s, t, j)
    decreases |s| - k
  {
    if k + |t| > |s| then -1
    else if s[k..k + |t|] == t then k
    else FindFrom(s, t, k + 1)
  }

  /** The first position of `t` in `s`, or -1. */
  function Find(s: string, t: string): (i: int)
    ensures i == -1 || OccursAt(s, t, i)
    ensures i == -1 ==> forall j :: !OccursAt(s, t, j)
    ensures forall j :: j < i ==> !OccursAt(s, t, j)
  {
    FindFrom(s, t, 0)
  }

  predicate Contains(s: string, t: string)
  {
    Find(s, t) >= 0
  }

  lemma ContainsAt(s: string, t: string, i: int)
    requires OccursAt(s, t, i)
    ensures Contains(s, t)
  {
  }

  /** An occurrence stays one when text is put around it. */
  lemma OccursInside(x: string, s: string, y: string, t: string, i: int)
    requires 0 <= i && i + |t| <= |s|
    ensures OccursAt(x + s + y, t, |x| + i) <==> OccursAt(s, t, i)
  {
    assert (x + s + y)[|x| + i..|x| + i + |t|] == s[i..i + |t|];
  }

  /** `split` with a longer separator: cut at the leftmost occurrence, then go on behind it. */
  function SplitOn(s: string, sep: string): (parts: seq<string>)
    requires sep != ""
    ensures |parts| >= 1
    ensures |parts| == 1 <==> !Contains(s, sep)
    decreases |s|
  {
    var i := Find(s, sep);
    if i < 0 then [s] else [s[..i]] + SplitOn(s[i + |sep|..], sep)
  }

  predicate StartsWith(s: string, t: string)
  {
    |t| <= |s| && s[..|t|] == t
  }

  // ---------- integers ----------

  predicate IsDigit(c: char)
  {
    '0' <= c <= '9'
  }

  function DigitChar(d: nat): (c: char)
    requires d < 10
    ensures IsDigit(c) && c as int - '0' as int == d
  {
    ('0' as int + d) as char
  }

  function NatText(n: nat): (s: string)
    ensures s != ""
    ensures forall c :: c in s ==> IsDigit(c)
  {
    if n < 10 then [DigitChar(n)] else NatText(n / 10) + [DigitChar(n % 10)]
  }

  function IntText(n: int): (s: string)
    ensures s != ""
    ensures forall c :: c in s ==> IsDigit(c) || c == '-'
  {
    if n < 0 then "-" + NatText(-n) else NatText(n)
  }

  function DigitsValue(s: string): nat
    requires forall c :: c in s ==> IsDigit(c)
  {
    if s == "" then 0
    else
      var last := s[|s| - 1];
      assert last in s && IsDigit(last) && last as int >= '0' as int;
      DigitsValue(s[..|s| - 1]) * 10 + (last as int - '0' as int)
  }

  predicate IsBlank(c: char)
  {
    c == ' ' || c == '\t' || c == '\n' || c == '\r'
  }

  function TrimLeft(s: string): string
  {
    if s != "" && IsBlank(s[0]) then TrimLeft(s[1..]) else s
  }

  function TrimRight(s: string): string
  {
    if s != "" && IsBlank(s[|s| - 1]) then TrimRight(s[..|s| - 1]) else s
  }

  /** `int(text)`: blanks around, an optional sign, at least one digit; None is the ValueError. */
  function ParseInt(s: string): Option<int>
  {
    var t := TrimRight(TrimLeft(s));
    var negative := t != "" && t[0] == '-';
    var digits := if t != "" && (t[0] == '-' || t[0] == '+') then t[1..] else t;
    if digits == "" || exists c :: c in digits && !IsDigit(c) then None
    else if negative then Some(-(DigitsValue(digits) as int)) else Some(DigitsValue(digits))
  }

  lemma {:induction false} DigitsValueOfNatText(n: nat)
    ensures DigitsValue(NatText(n)) == n
  {
    if n < 10 {
      assert NatText(n)[..0] == "";
    } else {
      DigitsValueOfNatText(n / 10);
      var s := NatText(n);
      assert s[..|s| - 1] == NatText(n / 10);
    }
  }

  lemma NothingToTrim(s: string)
    requires s != "" && !IsBlank(s[0]) && !IsBlank(s[|s| - 1])
    ensures TrimRight(TrimLeft(s)) == s
  {
  }

  lemma DigitsRead(n: nat)
    ensures var s := NatText(n);
            && IsDigit(s[0]) && IsDigit(s[|s| - 1])
            && !(exists c :: c in s && !IsDigit(c))
            && DigitsValue(s) == n
  {
    var s := NatText(n);
    assert s[0] in s && s[|s| - 1] in s;
    DigitsValueOfNatText(n);
  }

  /** Decimal digits, most significant first. */
  lemma DecimalText(n: nat, d: nat)
    requires d < 10
    ensures n > 0 ==> NatText(10 * n + d) == NatText(n) + NatText(d)
    ensures d == 0 ==> NatText(d) == "0"
    ensures d == 9 ==> NatText(d) == "9"
  {
    assert (10 * n + d) / 10 == n && (10 * n + d) % 10 == d;
  }

  /** Reading back the decimal text of any integer. */
  lemma ParseIntOfIntText(n: int)
    ensures ParseInt(IntText(n)) == Some(n)
  {
    var s := IntText(n);
    if n < 0 {
      DigitsRead(-n);
      assert s[1..] == NatText(-n) && s[0] == '-';
      NothingToTrim(s);
    } else {
      DigitsRead(n);
      NothingToTrim(s);
    }
  }
}

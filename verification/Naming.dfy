/**
 The file names of chunk parts (storage_filesystem.go): hash, part and total in one string. Different parts never
 share a file, so a backend's directory is a map from parts to bytes.
 */
module Naming {
  import opened Basics
  import opened Backends

  function Digit(n: nat): char
    requires n < 10
  {
    "0123456789"[n]
  }

  predicate IsDigit(c: char) { '0' <= c <= '9' }

  /** FormatUint in base 10. */
  function Decimal(n: nat): (s: string)
    ensures |s| > 0 && forall i :: 0 <= i < |s| ==> IsDigit(s[i])
    decreases n
  {
    if n < 10 then [Digit(n)] else Decimal(n / 10) + [Digit(n % 10)]
  }

  function FileName(key: PartKey): string { key.hash + "." + Decimal(key.part) + "_" + Decimal(key.total) }

  /** The two directory levels above the file; the program panics on a hash of less than four characters. */
  function SubDir(hash: string): string
    requires |hash| >= 4
  {
    hash[0..2] + "/" + hash[2..4]
  }

  function Path(chunkPath: string, key: PartKey): string
    requires |key.hash| >= 4
  {
    chunkPath + "/" + SubDir(key.hash) + "/" + FileName(key)
  }

  lemma {:induction false} DecimalInjective(m: nat, n: nat)
    requires Decimal(m) == Decimal(n)
    ensures m == n
    decreases m
  {
    var s, t := Decimal(m), Decimal(n);
    assert s[|s| - 1] == Digit(m % 10) && t[|t| - 1] == Digit(n % 10);
    assert m % 10 == n % 10;
    if m >= 10 && n >= 10 {
      assert s[..|s| - 1] == Decimal(m / 10) && t[..|t| - 1] == Decimal(n / 10);
      DecimalInjective(m / 10, n / 10);
    }
  }

  /** A separator that does not occur behind it splits a string in one way only. */
  lemma SplitAtLast(a: string, b: string, c: string, d: string, sep: char)
    requires a + [sep] + b == c + [sep] + d && sep !in b && sep !in d
    ensures a == c && b == d
  {
    var s := a + [sep] + b;
    assert s[|a|] == sep && (c + [sep] + d)[|c|] == sep;
    assert |a| == |c|;
    assert a == s[..|a|] && c == s[..|a|];
    assert b == s[|a| + 1..] && d == s[|a| + 1..];
  }

  lemma NoSeparators(n: nat)
    ensures '.' !in Decimal(n) && '_' !in Decimal(n)
  {
  }

  /** Different parts have different file names, whatever characters their hashes consist of. */
  lemma FileNameInjective(k: PartKey, l: PartKey)
    requires FileName(k) == FileName(l)
    ensures k == l
  {
    NoSeparators(k.part);
    NoSeparators(k.total);
    NoSeparators(l.part);
    NoSeparators(l.total);
    var kHead, lHead := k.hash + "." + Decimal(k.part), l.hash + "." + Decimal(l.part);
    SplitAtLast(kHead, Decimal(k.total), lHead, Decimal(l.total), '_');
    SplitAtLast(k.hash, Decimal(k.part), l.hash, Decimal(l.part), '.');
    DecimalInjective(k.part, l.part);
    DecimalInjective(k.total, l.total);
  }

  lemma NoSlash(key: PartKey)
    requires '/' !in key.hash
    ensures '/' !in FileName(key)
  {
    assert '/' !in Decimal(key.part) && '/' !in Decimal(key.total);
  }

  /** Two parts are in the same file of a backend if and only if they are the same part. */
  lemma PathInjective(chunkPath: string, k: PartKey, l: PartKey)
    requires |k.hash| >= 4 && |l.hash| >= 4 && '/' !in k.hash && '/' !in l.hash
    ensures Path(chunkPath, k) == Path(chunkPath, l) <==> k == l
  {
    if Path(chunkPath, k) == Path(chunkPath, l) {
      NoSlash(k);
      NoSlash(l);
      SplitAtLast(chunkPath + "/" + SubDir(k.hash), FileName(k), chunkPath + "/" + SubDir(l.hash), FileName(l), '/');
      FileNameInjective(k, l);
    }
  }

  function DigitValue(c: char): nat
    requires IsDigit(c)
  {
    c as int - '0' as int
  }

  /** The number that a string of digits denotes. */
  function Value(s: string): nat
    requires forall i :: 0 <= i < |s| ==> IsDigit(s[i])
  {
    if s == [] then 0 else 10 * Value(s[..|s| - 1]) + DigitValue(s[|s| - 1])
  }

  /** The numbers in a file name are in base 10, the leading digit first and not zero unless it is the only one. */
  lemma {:induction false} DecimalDenotes(n: nat)
    ensures Value(Decimal(n)) == n && (Decimal(n)[0] == '0' ==> n == 0)
    decreases n
  {
    var s := Decimal(n);
    if n < 10 {
      assert s[..0] == [];
    } else {
      DecimalDenotes(n / 10);
      assert s[..|s| - 1] == Decimal(n / 10);
      assert s[0] == Decimal(n / 10)[0];
    }
  }

  /** Two parts are in the same directory if and only if their hashes begin with the same four characters. */
  lemma SubDirExact(h: string, g: string)
    requires |h| >= 4 && |g| >= 4
    ensures SubDir(h) == SubDir(g) <==> h[..4] == g[..4]
    ensures |SubDir(h)| == 5 && SubDir(h)[2] == '/'
  {
    var s, t := SubDir(h), SubDir(g);
    assert s[0] == h[0] && s[1] == h[1] && s[3] == h[2] && s[4] == h[3];
    assert t[0] == g[0] && t[1] == g[1] && t[3] == g[2] && t[4] == g[3];
    assert forall i :: 0 <= i < 4 ==> h[..4][i] == h[i] && g[..4][i] == g[i];
    if s == t { assert h[..4] == g[..4]; }
    if h[..4] == g[..4] {
      assert h[0] == h[..4][0] == g[0] && h[1] == h[..4][1] == g[1];
      assert h[2] == h[..4][2] == g[2] && h[3] == h[..4][3] == g[3];
    }
  }
}

/** Strings and Windows paths as the scripts build and inspect them: decimal
    rendering of years, ASCII lower-casing, substring tests, `str.replace`
    with an empty replacement, `os.path.join` and `os.path.splitext`. */
module Text {

  type Path = string

  predicate IsDigit(c: char) { '0' <= c <= '9' }

  function DigitChar(d: nat): (c: char)
    requires d < 10
    ensures IsDigit(c) && c as int == '0' as int + d
  {
    ('0' as int + d) as char
  }

  /** `str(n)` for a natural number: its decimal digits, most significant first. */
  function NatToString(n: nat): (s: string)
    ensures 1 <= |s|
    ensures forall i :: 0 <= i < |s| ==> IsDigit(s[i])
    ensures n < 10 <==> |s| == 1
  {
    if n < 10 then [DigitChar(n)] else NatToString(n / 10) + [DigitChar(n % 10)]
  }

  /** Two numbers with the same decimal rendering are equal, so names that
      embed a year keep years apart. */
  lemma {:induction false} NatToStringInjective(a: nat, b: nat)
    requires NatToString(a) == NatToString(b)
    ensures a == b
  {
    var sa, sb := NatToString(a), NatToString(b);
    if a < 10 && b < 10 {
      assert sa[0] == DigitChar(a) && sb[0] == DigitChar(b);
    } else if 10 <= a && 10 <= b {
      assert sa == NatToString(a / 10) + [DigitChar(a % 10)];
      assert sb == NatToString(b / 10) + [DigitChar(b % 10)];
      assert sa[|sa| - 1] == DigitChar(a % 10) && sb[|sb| - 1] == DigitChar(b % 10);
      assert NatToString(a / 10) == sa[..|sa| - 1];
      assert NatToString(b / 10) == sb[..|sb| - 1];
      NatToStringInjective(a / 10, b / 10);
    }
  }

  /** `str.lower()` restricted to ASCII letters. */
  function LowerChar(c: char): char
  {
    if 'A' <= c <= 'Z' then (c as int + 32) as char else c
  }

  function Lower(s: string): (r: string)
    ensures |r| == |s|
    ensures forall i :: 0 <= i < |s| ==> r[i] == LowerChar(s[i])
  {
    seq(|s|, i requires 0 <= i < |s| => LowerChar(s[i]))
  }

  predicate StartsWith(s: string, prefix: string)
  {
    |prefix| <= |s| && s[..|prefix|] == prefix
  }

  /** `s.endswith(suffix)`. */
  predicate EndsWith(s: string, suffix: string)
  {
    |suffix| <= |s| && s[|s| - |suffix|..] == suffix
  }

  /** `sub in s`: `sub` occurs somewhere in `s`. */
  predicate Contains(s: string, sub: string)
    decreases |s|
  {
    StartsWith(s, sub) || (0 < |s| && Contains(s[1..], sub))
  }

  /** The first position at which `sub` occurs in `s` (`s.find(sub)`). */
  function IndexOf(s: string, sub: string): (k: nat)
    requires Contains(s, sub)
    ensures k + |sub| <= |s| && s[k..k + |sub|] == sub
    decreases |s|
  {
    if StartsWith(s, sub) then 0 else 1 + IndexOf(s[1..], sub)
  }

  /** `s.replace(pattern, "")`: every non-overlapping occurrence of `pattern`,
      scanned left to right, is removed. */
  function RemoveAll(s: string, pattern: string): string
    requires 0 < |pattern|
    decreases |s|
  {
    if |s| < |pattern| then s
    else if s[..|pattern|] == pattern then RemoveAll(s[|pattern|..], pattern)
    else [s[0]] + RemoveAll(s[1..], pattern)
  }

  predicate NoDot(s: string)
  {
    forall i :: 0 <= i < |s| ==> s[i] != '.'
  }

  /** Removing ".zip" from a dot-free name followed by ".zip" gives back the name. */
  lemma {:induction false} RemoveZipSuffix(s: string)
    requires NoDot(s)
    ensures RemoveAll(s + ".zip", ".zip") == s
    decreases |s|
  {
    var t := s + ".zip";
    if s == [] {
      assert t[..4] == ".zip";
      assert t[4..] == [];
    } else {
      assert t[0] == s[0] != '.';
      assert t[..4] != ".zip";
      assert t[1..] == s[1..] + ".zip";
      RemoveZipSuffix(s[1..]);
    }
  }

  /** The Windows path separator that `os.path.join` inserts. */
  const Sep: string := "\\"

  /** `os.path.join(dir, name)` for a directory that does not end in a separator. */
  function Join(dir: Path, name: string): Path
  {
    dir + Sep + name
  }

  /** `p` is the directory `dir` itself or lies somewhere below it. */
  predicate InTree(p: Path, dir: Path)
  {
    p == dir || StartsWith(p, dir + Sep)
  }

  /** Index of the last '.' in `s` (`s.rfind(".")`), or -1. */
  function LastDot(s: string): (k: int)
    ensures -1 <= k < |s|
    ensures 0 <= k ==> s[k] == '.'
    ensures forall j :: k < j < |s| ==> s[j] != '.'
    decreases |s|
  {
    if s == [] then -1
    else if s[|s| - 1] == '.' then |s| - 1
    else LastDot(s[..|s| - 1])
  }

  /** `os.path.splitext(name)[0]` for a file name without separators: the part
      before the last dot, unless every character before that dot is a dot. */
  function Stem(name: string): string
  {
    var d := LastDot(name);
    if 0 <= d && exists j :: 0 <= j < d && name[j] != '.' then name[..d] else name
  }
}

/**
 * The NUL-terminated string helpers of the common headers: path base
 * name (in place), file extension (two versions) and prefix test.
 *
 * A C string is an array or sequence of bytes holding a 0 somewhere; its
 * text is everything before the first 0.
 */
module Strings {
  import opened Primitives

  const Dot: u8 := 0x2E
  const Slash: u8 := 0x2F
  const Backslash: u8 := 0x5C

  /** The path delimiter: `\` on Windows builds, `/` elsewhere. */
  function Delimiter(windows: bool): u8
  {
    if windows then Backslash else Slash
  }

  /** `strlen`: the index of the first NUL of a terminated string. */
  function CLength(s: seq<u8>): (n: nat)
    requires 0 in s
    ensures n < |s| && s[n] == 0
    ensures forall i :: 0 <= i < n ==> s[i] != 0
  {
    if s[0] == 0 then 0 else 1 + CLength(s[1..])
  }

  /** The text of a C string. */
  function Text(s: seq<u8>): (t: seq<u8>)
    requires 0 in s
    ensures 0 !in t
  {
    s[..CLength(s)]
  }

  /** Text placed before a terminator is read back as that text. */
  lemma TextOf(t: seq<u8>, rest: seq<u8>)
    requires 0 !in t
    ensures 0 in t + [0] + rest && Text(t + [0] + rest) == t
  {
    var s := t + [0] + rest;
    assert s[|t|] == 0;
    assert s[..|t|] == t;
    assert CLength(s) == |t|;
  }

  /** The position of the last c in s, if any. */
  function LastIndexOf(s: seq<u8>, c: u8): (r: Option<nat>)
    ensures r.Some? ==> r.value < |s| && s[r.value] == c &&
                        forall j :: r.value < j < |s| ==> s[j] != c
    ensures r.None? ==> c !in s
  {
    if |s| == 0 then None
    else if s[|s| - 1] == c then Some(|s| - 1)
    else
      var r := LastIndexOf(s[..|s| - 1], c);
      assert s == s[..|s| - 1] + [s[|s| - 1]];
      r
  }

  /**
   * `basename(str)`: the last delimiter of the text is overwritten with a
   * NUL and the result is true; with no delimiter the string is left as it
   * is and the result is false.
   */
  method BaseName(str: array<u8>, windows: bool) returns (found: bool)
    requires 0 in str[..]
    modifies str
    ensures var last := LastIndexOf(Text(old(str[..])), Delimiter(windows));
      (found <==> last.Some?) &&
      (found ==> str[..] == old(str[..])[last.value := 0]) &&
      (!found ==> str[..] == old(str[..]))
  {
    ghost var text := Text(str[..]);
    var d := Delimiter(windows);
    var delim: Option<nat> := None;
    var i := 0;
    while str[i] != 0
      invariant i <= |text| && delim == LastIndexOf(text[..i], d)
      invariant str[..] == old(str[..])
      decreases |text| - i
    {
      assert text[..i + 1] == text[..i] + [str[i]];
      assert text[..i + 1][..i] == text[..i];
      if str[i] == d {
        delim := Some(i);
      }
      i := i + 1;
    }
    assert text[..i] == text;
    if delim.Some? {
      str[delim.value] := 0;
      return true;
    }
    return false;
  }

  /**
   * After `basename` found a delimiter, the string reads as the directory
   * part: the text up to the last delimiter.
   */
  lemma BaseNameText(s: seq<u8>, windows: bool)
    requires 0 in s
    ensures var last := LastIndexOf(Text(s), Delimiter(windows));
      last.Some? ==> 0 in s[last.value := 0] && Text(s[last.value := 0]) == Text(s)[..last.value]
  {
    var t := Text(s);
    var last := LastIndexOf(t, Delimiter(windows));
    if last.Some? {
      var s' := s[last.value := 0];
      assert s' == t[..last.value] + [0] + s'[last.value + 1..];
      TextOf(t[..last.value], s'[last.value + 1..]);
    }
  }

  /**
   * Where the extension of the text t begins: just after the last '.'
   * that is followed by a character other than '.', or 0 when there is
   * none.
   */
  function ExtensionStart(t: seq<u8>): (r: nat)
    ensures r < |t| || r == 0
    ensures r > 0 ==> t[r - 1] == Dot && t[r] != Dot
    ensures forall j :: r < j < |t| ==> !(t[j - 1] == Dot && t[j] != Dot)
  {
    if |t| < 2 then 0
    else if t[|t| - 2] == Dot && t[|t| - 1] != Dot then |t| - 1
    else
      var p := t[..|t| - 1];
      assert forall j :: 0 <= j < |p| ==> p[j] == t[j];
      ExtensionStart(p)
  }

  /** Scanning one more character of the text. */
  lemma ExtensionStep(t: seq<u8>, i: nat)
    requires i < |t|
    ensures ExtensionStart(t[..i + 1]) ==
      if i > 0 && t[i] != Dot && t[i - 1] == Dot then i else ExtensionStart(t[..i])
  {
    assert t[..i + 1][..i] == t[..i];
  }

  /**
   * `str::extension(str)`: the index where the returned suffix begins,
   * 0 (the whole string) when no '.' is followed by another character.
   */
  method Extension(str: seq<u8>) returns (r: nat)
    requires 0 in str
    ensures r == ExtensionStart(Text(str))
  {
    ghost var text := Text(str);
    r := 0;
    var i := 0;
    while str[i] != 0
      invariant i <= |text| && r == ExtensionStart(text[..i])
      decreases |text| - i
    {
      ExtensionStep(text, i);
      if i > 0 && str[i] != Dot && str[i - 1] == Dot {
        r := i;
      }
      i := i + 1;
    }
    assert text[..i] == text;
  }

  /** The asset test: the extension of "face12a.png" is "png". */
  lemma ExtensionExample()
    ensures var t: seq<u8> := [0x66, 0x61, 0x63, 0x65, 0x31, 0x32, 0x61, Dot, 0x70, 0x6E, 0x67];
      t[ExtensionStart(t)..] == [0x70, 0x6E, 0x67]
  {
    var t: seq<u8> := [0x66, 0x61, 0x63, 0x65, 0x31, 0x32, 0x61, Dot, 0x70, 0x6E, 0x67];
    assert t[7] == Dot && t[8] != Dot && t[8] != Dot && t[9] != Dot;
    assert ExtensionStart(t) == 8;
  }

  /**
   * Where the old header's `Str::Extension` result begins, once the first
   * i characters of the text t are scanned: just after the last '.' among
   * them that is not the final character of t; None (a null pointer) when
   * there is none.
   */
  function OldExtensionFrom(t: seq<u8>, i: nat): (r: Option<nat>)
    requires i <= |t|
    ensures r.Some? ==> 0 < r.value <= i && r.value < |t| && t[r.value - 1] == Dot
    ensures r.Some? ==> forall j :: r.value <= j < i && j < |t| - 1 ==> t[j] != Dot
    ensures r.None? ==> forall j :: 0 <= j < i && j < |t| - 1 ==> t[j] != Dot
  {
    if i == 0 then None
    else if t[i - 1] == Dot && i < |t| then Some(i)
    else OldExtensionFrom(t, i - 1)
  }

  /** The old header's `Str::Extension(str)`. */
  method OldExtension(str: seq<u8>) returns (r: Option<nat>)
    requires 0 in str
    ensures r == OldExtensionFrom(Text(str), |Text(str)|)
  {
    ghost var text := Text(str);
    r := None;
    var i := 0;
    while str[i] != 0
      invariant i <= |text| && r == OldExtensionFrom(text, i)
      decreases |text| - i
    {
      if str[i] == Dot && str[i + 1] != 0 {
        r := Some(i + 1);
      }
      i := i + 1;
    }
  }

  /**
   * `strncmp(a, b, k) == 0`: the first k characters agree, stopping early
   * at a NUL that both share.
   */
  function StrNEqual(a: seq<u8>, b: seq<u8>, k: nat): bool
    requires 0 in a && 0 in b
  {
    if k == 0 then true
    else if a[0] != b[0] then false
    else if a[0] == 0 then true
    else StrNEqual(a[1..], b[1..], k - 1)
  }

  /** `Str::StartsWith(haystack, needle)`: `strncmp` over the needle's length. */
  function StartsWith(haystack: seq<u8>, needle: seq<u8>): bool
    requires 0 in haystack && 0 in needle
  {
    StrNEqual(haystack, needle, CLength(needle))
  }

  /** Comparing k characters of two texts that are at least k long. */
  lemma {:induction false} StrNEqualPrefix(a: seq<u8>, b: seq<u8>, k: nat)
    requires 0 in a && 0 in b && k <= CLength(b)
    ensures StrNEqual(a, b, k) <==> k <= CLength(a) && a[..k] == b[..k]
  {
    if k > 0 {
      if a[0] == b[0] {
        assert 0 in a[1..] && 0 in b[1..];
        StrNEqualPrefix(a[1..], b[1..], k - 1);
        if k <= CLength(a) {
          assert a[..k] == [a[0]] + a[1..][..k - 1];
          assert b[..k] == [b[0]] + b[1..][..k - 1];
        }
      } else if k <= CLength(a) {
        assert a[..k][0] != b[..k][0];
      }
    }
  }

  /** StartsWith holds exactly when the needle's text begins the haystack's. */
  lemma StartsWithPrefix(haystack: seq<u8>, needle: seq<u8>)
    requires 0 in haystack && 0 in needle
    ensures StartsWith(haystack, needle) <==>
      |Text(needle)| <= |Text(haystack)| && Text(needle) == Text(haystack)[..|Text(needle)|]
  {
    StrNEqualPrefix(haystack, needle, CLength(needle));
  }
}

/**
  The three kinds of file a download touches, and the names the downloader
  gives them: the destination `./parts/<name>`, the in-progress flag
  `./parts/.<name>~`, and the scratch file of segment `i`,
  `./parts/<name>.part<i>`, where `<i>` is the decimal rendering of `i`.
 */
module Paths {

  /**
    A file of destination `name`: the destination itself, its in-progress
    flag, or the scratch file of segment `index`.
   */
  datatype Path = Output(name: string) | Flag(name: string) | Part(name: string, index: nat)

  const PartsDir: string := "./parts/"

  predicate IsDigit(c: char) {
    '0' <= c <= '9'
  }

  function DigitChar(d: nat): (c: char)
    requires d < 10
    ensures IsDigit(c)
  {
    ('0' as int + d) as char
  }

  function DigitValue(c: char): (d: nat)
    requires IsDigit(c)
    ensures d < 10 && DigitChar(d) == c
  {
    c as int - '0' as int
  }

  /** How a non-negative integer is rendered inside a template string. */
  function Decimal(i: nat): (s: string)
    ensures |s| > 0
    ensures forall k :: 0 <= k < |s| ==> IsDigit(s[k])
    ensures |s| > 1 ==> s[0] != '0'
    decreases i
  {
    if i < 10 then [DigitChar(i)] else Decimal(i / 10) + [DigitChar(i % 10)]
  }

  /** Reads a string of digits back as a number. */
  function ParseDecimal(s: string): nat
    requires forall k :: 0 <= k < |s| ==> IsDigit(s[k])
    decreases |s|
  {
    if |s| == 0 then 0 else 10 * ParseDecimal(s[..|s| - 1]) + DigitValue(s[|s| - 1])
  }

  /** Decimal rendering loses nothing: parsing it gives the number back. */
  lemma {:induction false} DecimalRoundTrip(i: nat)
    ensures ParseDecimal(Decimal(i)) == i
    decreases i
  {
    if i >= 10 {
      var s := Decimal(i);
      assert s[..|s| - 1] == Decimal(i / 10);
      DecimalRoundTrip(i / 10);
    }
  }

  /** The part of a file name after the segment-file marker, as a number. */
  function PartIndex(name: string, s: string): nat {
    var prefix := PartsDir + name + ".part";
    if |prefix| <= |s| && s[..|prefix|] == prefix && AllDigits(s[|prefix|..]) then
      ParseDecimal(s[|prefix|..])
    else
      0
  }

  predicate AllDigits(s: string) {
    forall k :: 0 <= k < |s| ==> IsDigit(s[k])
  }

  /**
    The file name the downloader uses for `p` (lines 92-93 and 134): every
    file lies in `./parts/`, the destination and its scratch files start
    with the destination's name, and the flag is a hidden file ending in `~`.
   */
  function Render(p: Path): (s: string)
    ensures PartsDir <= s
    ensures !p.Flag? ==> PartsDir + p.name <= s
    ensures p.Flag? ==> |s| > |PartsDir| && s[|PartsDir|] == '.' && s[|s| - 1] == '~'
  {
    match p
    case Output(name) => PartsDir + name
    case Flag(name) => PartsDir + "." + name + "~"
    case Part(name, i) => PartsDir + name + ".part" + Decimal(i)
  }

  /** The segment index is read back from the file name of every scratch file. */
  lemma PartIndexRoundTrip(name: string, i: nat)
    ensures PartIndex(name, Render(Part(name, i))) == i
  {
    var prefix := PartsDir + name + ".part";
    var s := Render(Part(name, i));
    assert s[..|prefix|] == prefix;
    assert s[|prefix|..] == Decimal(i);
    DecimalRoundTrip(i);
  }

  /**
    The files of one destination have pairwise distinct names, so keying the
    filesystem by Path rather than by file name merges no two files.
   */
  lemma RenderInjective(p: Path, q: Path)
    requires p.name == q.name
    ensures Render(p) == Render(q) <==> p == q
  {
    if Render(p) == Render(q) && p.Part? && q.Part? {
      PartIndexRoundTrip(p.name, p.index);
      PartIndexRoundTrip(q.name, q.index);
    }
  }
}

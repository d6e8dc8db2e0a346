/** The listing of the log directory, and why a log file name can be taken for a number: labels
    of one length, made of hexadecimal digits, are ordered as strings exactly as the numbers
    they spell. */
module SvlogdNames {
  import LogShipping

  /** std::string's operator<. */
  predicate StringLess(a: string, b: string) {
    b != [] && (a == [] || a[0] < b[0] || (a[0] == b[0] && StringLess(a[1..], b[1..])))
  }

  predicate IsHexDigit(c: char) {
    '0' <= c <= '9' || 'a' <= c <= 'f'
  }

  function Digit(c: char): nat
    requires IsHexDigit(c)
  {
    if c <= '9' then (c as int) - ('0' as int) else 10 + (c as int) - ('a' as int)
  }

  function Power16(n: nat): nat {
    if n == 0 then 1 else 16 * Power16(n - 1)
  }

  predicate IsLabel(s: string) {
    forall i | 0 <= i < |s| :: IsHexDigit(s[i])
  }

  function LabelValue(s: string): nat
    requires IsLabel(s)
  {
    if s == [] then 0 else Digit(s[0]) * Power16(|s| - 1) + LabelValue(s[1..])
  }

  lemma {:induction false} LabelFitsWidth(s: string)
    requires IsLabel(s)
    ensures LabelValue(s) < Power16(|s|)
  {
    if s != [] {
      LabelFitsWidth(s[1..]);
      LeadingDigitDecides(0, LabelValue(s), Digit(s[0]), LabelValue(s[1..]), Power16(|s| - 1));
    }
  }

  lemma LeadingDigitDecides(lo: nat, total: nat, digit: nat, rest: nat, unit: nat)
    requires rest < unit && total == digit * unit + rest && lo <= digit < 16
    ensures lo * unit <= total < (digit + 1) * unit <= 16 * unit
  {
  }

  lemma LeadingDigitsDiffer(a: string, b: string)
    requires IsLabel(a) && IsLabel(b) && |a| == |b| > 0
    requires Digit(a[0]) < Digit(b[0])
    ensures LabelValue(a) < LabelValue(b)
  {
    LabelFitsWidth(a[1..]);
    LabelFitsWidth(b[1..]);
    var unit := Power16(|a| - 1);
    LeadingDigitDecides(0, LabelValue(a), Digit(a[0]), LabelValue(a[1..]), unit);
    LeadingDigitDecides(Digit(a[0]) + 1, LabelValue(b), Digit(b[0]), LabelValue(b[1..]), unit);
  }

  /** Equal width makes string order numeric order, and labels unique. */
  lemma {:induction false} LabelOrderIsNumeric(a: string, b: string)
    requires IsLabel(a) && IsLabel(b) && |a| == |b|
    ensures StringLess(a, b) <==> LabelValue(a) < LabelValue(b)
    ensures a == b <==> LabelValue(a) == LabelValue(b)
  {
    if a != [] {
      if a[0] < b[0] {
        LeadingDigitsDiffer(a, b);
      } else if b[0] < a[0] {
        LeadingDigitsDiffer(b, a);
      } else {
        LabelOrderIsNumeric(a[1..], b[1..]);
        assert a == [a[0]] + a[1..] && b == [b[0]] + b[1..];
      }
    }
  }

  // ----- file names

  /** The width of a TAI64N label. */
  const WIDTH: nat := 24

  predicate IsSvlogdFilename(s: string) {
    s != [] && s[0] == '@'
  }

  /** An '@', a label, and any suffix. */
  predicate IsLabelled(s: string) {
    |s| > WIDTH && s[0] == '@' && IsLabel(s[1..WIDTH + 1])
  }

  function NameOf(s: string): LogShipping.Name
    requires IsLabelled(s)
  {
    LabelValue(s[1..WIDTH + 1])
  }

  lemma {:induction false} SuffixesDoNotMatter(a: string, b: string, x: string, y: string)
    requires |a| == |b| && a != b
    ensures StringLess(a + x, b + y) <==> StringLess(a, b)
  {
    assert (a + x)[1..] == a[1..] + x && (b + y)[1..] == b[1..] + y;
    if a[0] == b[0] {
      assert a == [a[0]] + a[1..] && b == [b[0]] + b[1..];
      SuffixesDoNotMatter(a[1..], b[1..], x, y);
    }
  }

  /** The order of file names with different labels is that of the labels, whatever follows them. */
  lemma NameOrderIsNumeric(s: string, t: string)
    requires IsLabelled(s) && IsLabelled(t) && NameOf(s) != NameOf(t)
    ensures StringLess(s, t) <==> NameOf(s) < NameOf(t)
  {
    var a, b := s[1..WIDTH + 1], t[1..WIDTH + 1];
    LabelOrderIsNumeric(a, b);
    SuffixesDoNotMatter(a, b, s[WIDTH + 1..], t[WIDTH + 1..]);
    assert s[1..] == a + s[WIDTH + 1..] && t[1..] == b + t[WIDTH + 1..];
  }

  // ----- the directory

  const STOP_FILENAME := "STOP_SHIPPING"

  function SvlogdFiles(fileNames: seq<string>): seq<string> {
    if fileNames == [] then [] else
    var last := fileNames[|fileNames| - 1];
    SvlogdFiles(fileNames[..|fileNames| - 1]) + if IsSvlogdFilename(last) then [last] else []
  }

  lemma {:induction false} SvlogdFilesAreMarked(fileNames: seq<string>)
    ensures forall s :: multiset(SvlogdFiles(fileNames))[s] ==
                        if s != "" && s[0] == '@' then multiset(fileNames)[s] else 0
  {
    if fileNames != [] {
      SvlogdFilesAreMarked(fileNames[..|fileNames| - 1]);
      assert fileNames == fileNames[..|fileNames| - 1] + [fileNames[|fileNames| - 1]];
    }
  }

  /** list_log_directory, on the sorted entries of the directory. */
  method ListLogDirectory(fileNames: seq<string>) returns (svlogdFiles: seq<string>)
    ensures svlogdFiles == if "STOP_SHIPPING" in fileNames then [] else SvlogdFiles(fileNames)
  {
    svlogdFiles := [];
    for i := 0 to |fileNames|
      invariant STOP_FILENAME !in fileNames[..i]
      invariant svlogdFiles == SvlogdFiles(fileNames[..i])
    {
      assert fileNames[..i + 1][..i] == fileNames[..i];
      if IsSvlogdFilename(fileNames[i]) {
        svlogdFiles := svlogdFiles + [fileNames[i]];
      }
      if fileNames[i] == STOP_FILENAME {
        return [];
      }
    }
    assert fileNames[..|fileNames|] == fileNames;
  }

  /** Sorted entries, of which those with an '@' are labelled, no two with one label. */
  ghost predicate IsLogDirectory(fileNames: seq<string>) {
    && (forall i, j | 0 <= i < j < |fileNames| :: StringLess(fileNames[i], fileNames[j]))
    && (forall s <- fileNames | IsSvlogdFilename(s) :: IsLabelled(s))
    && forall s <- fileNames, t <- fileNames | IsSvlogdFilename(s) && IsSvlogdFilename(t) ::
         NameOf(s) == NameOf(t) ==> s == t
  }

  /** The names of the log files among the entries. */
  ghost function Names(fileNames: seq<string>): seq<LogShipping.Name>
    requires forall s <- fileNames | IsSvlogdFilename(s) :: IsLabelled(s)
  {
    if fileNames == [] then [] else
    var last := fileNames[|fileNames| - 1];
    Names(fileNames[..|fileNames| - 1]) + if IsSvlogdFilename(last) then [NameOf(last)] else []
  }

  lemma {:induction false} StringLessIsStrict(s: string)
    ensures !StringLess(s, s)
  {
    if s != [] {
      StringLessIsStrict(s[1..]);
    }
  }

  /** The directory as the log-shipping protocol sees it: numbers in ascending order, which are
      exactly the labels of the files listed, in the order listed. */
  lemma {:induction false} LogDirectoryAscends(fileNames: seq<string>)
    requires IsLogDirectory(fileNames)
    ensures var (files, names) := (SvlogdFiles(fileNames), Names(fileNames));
            && LogShipping.Ascending(names) && |names| == |files|
            && (forall i | 0 <= i < |files| ::
                  files[i] in fileNames && IsLabelled(files[i]) && NameOf(files[i]) == names[i])
            && (forall s <- fileNames :: s in files <==> s != "" && s[0] == '@')
  {
    if fileNames != [] {
      var front, last := fileNames[..|fileNames| - 1], fileNames[|fileNames| - 1];
      assert fileNames == front + [last];
      LogDirectoryAscends(front);
      var files, names := SvlogdFiles(front), Names(front);
      StringLessIsStrict(last);
      if IsSvlogdFilename(last) {
        forall i | 0 <= i < |files| ensures names[i] < NameOf(last) {
          assert files[i] in front && StringLess(files[i], last);
          NameOrderIsNumeric(files[i], last);
        }
      }
    }
  }

  /** The listing of the protocol is this scan, file for file. */
  lemma ListingIsTheScan(e: LogShipping.Env, fileNames: seq<string>)
    requires IsLogDirectory(fileNames) && e.local == Names(fileNames)
    requires e.stopped <==> "STOP_SHIPPING" in fileNames
    ensures var scan := if "STOP_SHIPPING" in fileNames then [] else SvlogdFiles(fileNames);
            && |scan| == |e.Listing()|
            && forall i | 0 <= i < |scan| :: IsLabelled(scan[i]) && NameOf(scan[i]) == e.Listing()[i]
  {
    LogDirectoryAscends(fileNames);
  }
}

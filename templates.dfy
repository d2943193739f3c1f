/**
 * The template layer: the `humanDate` helper, the helper map handed to
 * every template set, the template cache built once at startup, and the
 * record of values a page template may read.
 *
 * A directory is its listing of file names; a path is the directory joined
 * with a name. Parsing a template file is abstract: `broken` maps every
 * file that fails to parse to the parser's message.
 */
module Templates {
  import opened Wrappers
  import Posts

  // ---------------------------------------------------------------------
  // humanDate
  // ---------------------------------------------------------------------

  type Month = m: int | 1 <= m <= 12 witness 1
  type DayOfMonth = d: int | 1 <= d <= 31 witness 1
  type Hour = h: int | 0 <= h < 24
  type Sixty = s: int | 0 <= s < 60
  type Nanosecond = n: int | 0 <= n < 1000000000

  /** A time.Time after its conversion to UTC, as its calendar fields. */
  datatype Instant = Instant(year: int, month: Month, day: DayOfMonth, hour: Hour, minute: Sixty,
                             second: Sixty, nanosecond: Nanosecond)

  /** time.Time's zero value: January 1 of year 1, 00:00:00.000000000 UTC. */
  predicate IsZero(t: Instant)
  {
    t == Instant(1, 1, 1, 0, 0, 0, 0)
  }

  /** The English month names of time.Month.String(). */
  const MonthNames: seq<string> := ["January", "February", "March", "April", "May", "June", "July",
                                    "August", "September", "October", "November", "December"]

  /** Layout element "Jan": the first three letters of the month's English name. */
  function MonthAbbrev(m: Month): (s: string)
    ensures |s| == 3
  {
    MonthNames[m - 1][..3]
  }

  predicate IsDigit(c: char)
  {
    '0' <= c <= '9'
  }

  predicate AllDigits(s: string)
  {
    forall i :: 0 <= i < |s| ==> IsDigit(s[i])
  }

  function DigitChar(d: int): (c: char)
    requires 0 <= d < 10
    ensures IsDigit(c)
  {
    (('0' as int) + d) as char
  }

  /** The decimal digits of `n`, without leading zeros ("0" for zero). */
  function Digits(n: nat): (s: string)
    ensures 1 <= |s| && AllDigits(s)
  {
    if n < 10 then [DigitChar(n)] else Digits(n / 10) + [DigitChar(n % 10)]
  }

  function Zeros(k: nat): (s: string)
    ensures |s| == k && AllDigits(s)
  {
    seq(k, _ => '0')
  }

  /** Go's time-formatting `appendInt(b, x, width)`: an optional minus sign, then the digits zero-padded to `width`. */
  function AppendInt(x: int, width: nat): string
  {
    var ds := Digits(if x < 0 then -x else x);
    (if x < 0 then "-" else "") + (if |ds| < width then Zeros(width - |ds|) else "") + ds
  }

  /**
   * `humanDate`: the empty string for the zero time, otherwise the UTC time
   * in the layout "02 Jan 2006 at 15:04".
   */
  function HumanDate(t: Instant): (s: string)
    ensures s == "" <==> IsZero(t)
  {
    if IsZero(t) then ""
    else AppendInt(t.day, 2) + " " + MonthAbbrev(t.month) + " " + AppendInt(t.year, 4)
         + " at " + AppendInt(t.hour, 2) + ":" + AppendInt(t.minute, 2)
  }

  /** The calendar fields that `humanDate` shows. */
  datatype ShownDate = ShownDate(day: int, month: Month, year: int, hour: int, minute: int)

  /** The value of a string of decimal digits. */
  function DecimalValue(s: string): nat
    requires AllDigits(s)
  {
    if s == [] then 0 else DecimalValue(s[..|s| - 1]) * 10 + (s[|s| - 1] as int - '0' as int)
  }

  /** The month whose three-letter abbreviation is `a`, if any. */
  function MonthOf(a: string): (m: Option<Month>)
    ensures m.Some? ==> MonthAbbrev(m.value) == a
  {
    MonthFrom(a, 1)
  }

  function MonthFrom(a: string, m: Month): (r: Option<Month>)
    ensures r.Some? ==> MonthAbbrev(r.value) == a
    ensures forall k: Month :: m <= k && MonthAbbrev(k) == a ==> r.Some?
    decreases 12 - m
  {
    if MonthAbbrev(m) == a then Some(m)
    else if m == 12 then None
    else MonthFrom(a, m + 1)
  }

  /** Reads back the fields of a string in the layout "02 Jan 2006 at 15:04" with a four-digit year. */
  function ParseHumanDate(s: string): Option<ShownDate>
  {
    if |s| != 20 || s[2] != ' ' || s[6] != ' ' || s[11..15] != " at " || s[17] != ':'
       || !AllDigits(s[..2]) || !AllDigits(s[7..11]) || !AllDigits(s[15..17]) || !AllDigits(s[18..])
    then None
    else match MonthOf(s[3..6])
      case None => None
      case Some(m) =>
        Some(ShownDate(DecimalValue(s[..2]), m, DecimalValue(s[7..11]), DecimalValue(s[15..17]), DecimalValue(s[18..])))
  }

  function Pow10(w: nat): (p: nat)
    ensures p >= 1
  {
    if w == 0 then 1 else 10 * Pow10(w - 1)
  }

  lemma {:induction false} DigitsValue(n: nat)
    ensures DecimalValue(Digits(n)) == n
  {
    if n >= 10 {
      DigitsValue(n / 10);
      var s := Digits(n);
      assert s[..|s| - 1] == Digits(n / 10);
    }
  }

  lemma {:induction false} DigitsFit(n: nat, w: nat)
    requires 1 <= w && n < Pow10(w)
    ensures |Digits(n)| <= w
  {
    if n >= 10 {
      DigitsFit(n / 10, w - 1);
    }
  }

  lemma {:induction false} LeadingZerosValue(k: nat, s: string)
    requires AllDigits(s)
    ensures AllDigits(Zeros(k) + s) && DecimalValue(Zeros(k) + s) == DecimalValue(s)
  {
    if s == [] {
      assert Zeros(k) + s == Zeros(k);
      ZerosValue(k);
    } else {
      var t := Zeros(k) + s;
      assert t[..|t| - 1] == Zeros(k) + s[..|s| - 1];
      LeadingZerosValue(k, s[..|s| - 1]);
    }
  }

  lemma {:induction false} ZerosValue(k: nat)
    ensures DecimalValue(Zeros(k)) == 0
  {
    if k > 0 {
      assert Zeros(k)[..k - 1] == Zeros(k - 1);
      ZerosValue(k - 1);
    }
  }

  /** A field that fits its width is printed in exactly `width` digits that read back as the field. */
  lemma PaddedField(n: nat, width: nat)
    requires 1 <= width && n < Pow10(width)
    ensures |AppendInt(n, width)| == width && AllDigits(AppendInt(n, width))
    ensures DecimalValue(AppendInt(n, width)) == n
  {
    var ds := Digits(n);
    DigitsFit(n, width);
    DigitsValue(n);
    if |ds| < width {
      LeadingZerosValue(width - |ds|, ds);
      assert AppendInt(n, width) == Zeros(width - |ds|) + ds;
    } else {
      assert AppendInt(n, width) == ds;
    }
  }

  /** The three-letter English month names the layout element "Jan" prints. */
  const MonthAbbrevs: seq<string> := ["Jan", "Feb", "Mar", "Apr", "May", "Jun", "Jul", "Aug", "Sep", "Oct", "Nov", "Dec"]

  /** The abbreviation of each month is the one in the table of English month abbreviations. */
  lemma MonthAbbrevTable(m: Month)
    ensures MonthAbbrev(m) == MonthAbbrevs[m - 1]
  {
    if m == 1 { assert MonthNames[0][..3] == "Jan"; }
    else if m == 2 { assert MonthNames[1][..3] == "Feb"; }
    else if m == 3 { assert MonthNames[2][..3] == "Mar"; }
    else if m == 4 { assert MonthNames[3][..3] == "Apr"; }
    else if m == 5 { assert MonthNames[4][..3] == "May"; }
    else if m == 6 { assert MonthNames[5][..3] == "Jun"; }
    else if m == 7 { assert MonthNames[6][..3] == "Jul"; }
    else if m == 8 { assert MonthNames[7][..3] == "Aug"; }
    else if m == 9 { assert MonthNames[8][..3] == "Sep"; }
    else if m == 10 { assert MonthNames[9][..3] == "Oct"; }
    else if m == 11 { assert MonthNames[10][..3] == "Nov"; }
    else { assert MonthNames[11][..3] == "Dec"; }
  }

  /** No two months share an abbreviation. */
  lemma MonthAbbrevInjective(m: Month, k: Month)
    requires MonthAbbrev(m) == MonthAbbrev(k)
    ensures m == k
  {
    MonthAbbrevTable(m);
    MonthAbbrevTable(k);
    assert MonthAbbrevs[m - 1] == MonthAbbrevs[k - 1];
  }

  lemma MonthRoundTrip(m: Month)
    ensures MonthOf(MonthAbbrev(m)) == Some(m)
  {
    var r := MonthOf(MonthAbbrev(m));
    MonthAbbrevInjective(r.value, m);
  }

  /**
   * Reading a humanDate string back gives the day, month, year, hour and
   * minute of the time it shows, for every non-zero time with a year of at
   * most four digits.
   */
  lemma HumanDateRoundTrip(t: Instant)
    requires !IsZero(t) && 0 <= t.year <= 9999
    ensures |HumanDate(t)| == 20
    ensures ParseHumanDate(HumanDate(t)) == Some(ShownDate(t.day, t.month, t.year, t.hour, t.minute))
  {
    var dd, mon, yyyy, hh, mm := AppendInt(t.day, 2), MonthAbbrev(t.month), AppendInt(t.year, 4),
                                 AppendInt(t.hour, 2), AppendInt(t.minute, 2);
    PaddedField(t.day, 2);
    PaddedField(t.year, 4);
    PaddedField(t.hour, 2);
    PaddedField(t.minute, 2);
    MonthRoundTrip(t.month);
    LayoutFields(dd, mon, yyyy, hh, mm);
  }

  /** Where each field sits in a string laid out as "02 Jan 2006 at 15:04". */
  lemma LayoutFields(dd: string, mon: string, yyyy: string, hh: string, mm: string)
    requires |dd| == 2 && |mon| == 3 && |yyyy| == 4 && |hh| == 2 && |mm| == 2
    ensures var s := dd + " " + mon + " " + yyyy + " at " + hh + ":" + mm;
      && |s| == 20 && s[..2] == dd && s[2] == ' ' && s[3..6] == mon && s[6] == ' '
      && s[7..11] == yyyy && s[11..15] == " at " && s[15..17] == hh && s[17] == ':' && s[18..] == mm
  {
    var s := dd + " " + mon + " " + yyyy + " at " + hh + ":" + mm;
    assert s[..2] == dd;
    assert s[3..6] == mon;
    assert s[7..11] == yyyy;
    assert s[11..15] == " at ";
    assert s[15..17] == hh;
    assert s[18..] == mm;
  }

  /** The date 2023-03-05 15:04 UTC is shown as "05 Mar 2023 at 15:04". */
  lemma HumanDateExample()
    ensures HumanDate(Instant(2023, 3, 5, 15, 4, 0, 0)) == "05 Mar 2023 at 15:04"
  {
    ExampleFields();
    ExampleText();
  }

  lemma ExampleFields()
    ensures HumanDate(Instant(2023, 3, 5, 15, 4, 0, 0)) == "05" + " " + "Mar" + " " + "2023" + " at " + "15" + ":" + "04"
  {
    ExampleDay();
    ExampleYear();
    ExampleTime();
    assert MonthAbbrev(3) == "Mar";
  }

  lemma ExampleText()
    ensures "05" + " " + "Mar" + " " + "2023" + " at " + "15" + ":" + "04" == "05 Mar 2023 at 15:04"
  {
  }

  lemma ExampleDay()
    ensures AppendInt(5, 2) == "05"
  {
    assert Digits(5) == "5";
  }

  lemma ExampleYear()
    ensures AppendInt(2023, 4) == "2023"
  {
    assert Digits(2) == "2";
    assert Digits(20) == "20";
    assert Digits(202) == "202";
    assert Digits(2023) == "2023";
  }

  lemma ExampleTime()
    ensures AppendInt(15, 2) == "15" && AppendInt(4, 2) == "04"
  {
    assert Digits(1) == "1";
    assert Digits(15) == "15";
    assert Digits(4) == "4";
  }

  /**
   * The helper map given to every template set: `humanDate` under the name
   * "humanDate", and nothing else.
   */
  function Functions(): (m: map<string, Instant -> string>)
    ensures m.Keys == {"humanDate"}
    ensures forall t :: m["humanDate"](t) == HumanDate(t)
  {
    map["humanDate" := HumanDate]
  }

  // ---------------------------------------------------------------------
  // Paths and globbing
  // ---------------------------------------------------------------------

  const PageSuffix: string := ".page.html"
  const LayoutSuffix: string := ".layout.html"
  const PartialSuffix: string := ".partial.html"

  predicate HasSuffix(s: string, suffix: string)
  {
    |suffix| <= |s| && s[|s| - |suffix|..] == suffix
  }

  /** A directory listing: distinct, non-empty entry names without a separator. */
  predicate DirectoryListing(names: seq<string>)
  {
    && (forall i, j :: 0 <= i < j < |names| ==> names[i] != names[j])
    && (forall i :: 0 <= i < |names| ==> names[i] != "" && '/' !in names[i])
  }

  /** filepath.Join of a directory and an entry name (without the path cleaning Join also does). */
  function Join(dir: string, name: string): string
  {
    if dir == "" then name else dir + "/" + name
  }

  /** The index of the last separator in `s`, or -1. */
  function LastSlash(s: string): (i: int)
    ensures -1 <= i < |s|
    ensures i >= 0 ==> s[i] == '/'
    ensures forall j :: i < j < |s| ==> s[j] != '/'
  {
    if s == [] then -1
    else if s[|s| - 1] == '/' then |s| - 1
    else LastSlash(s[..|s| - 1])
  }

  function TrimTrailingSlashes(s: string): (r: string)
    ensures r == [] || r[|r| - 1] != '/'
  {
    if s != [] && s[|s| - 1] == '/' then TrimTrailingSlashes(s[..|s| - 1]) else s
  }

  /** filepath.Base: the last element of a path, after trailing separators are dropped. */
  function Base(path: string): string
  {
    if path == "" then "."
    else
      var p := TrimTrailingSlashes(path);
      if p == "" then "/" else p[LastSlash(p) + 1..]
  }

  /** The base name of a directory entry's path is the entry's own name. */
  lemma BaseOfJoin(dir: string, name: string)
    requires name != "" && '/' !in name
    ensures Base(Join(dir, name)) == name
  {
    var path := Join(dir, name);
    assert path[|path| - 1] == name[|name| - 1];
    assert TrimTrailingSlashes(path) == path;
    LastSlashOfJoin(dir, name);
    if dir != "" {
      assert path[|dir| + 1..] == name;
    }
  }

  /** The last separator of a joined path is the one Join put in, if any. */
  lemma LastSlashOfJoin(dir: string, name: string)
    requires '/' !in name
    ensures LastSlash(Join(dir, name)) == if dir == "" then -1 else |dir|
  {
    var path := Join(dir, name);
    var i := LastSlash(path);
    if dir == "" {
      assert forall j :: 0 <= j < |path| ==> path[j] in name;
    } else {
      assert path[|dir|] == '/';
      assert forall j :: |dir| < j < |path| ==> path[j] == name[j - |dir| - 1];
    }
  }

  /** The entries of a listing whose names end in `suffix`, in listing order. */
  function Matching(names: seq<string>, suffix: string): (r: seq<string>)
    ensures forall n :: n in r <==> n in names && HasSuffix(n, suffix)
    ensures DirectoryListing(names) ==> DirectoryListing(r)
  {
    if names == [] then []
    else (if HasSuffix(names[0], suffix) then [names[0]] else []) + Matching(names[1..], suffix)
  }

  /** The matches of two listings in a row are the matches of the first followed by those of the second. */
  lemma {:induction false} MatchingAppend(a: seq<string>, b: seq<string>, suffix: string)
    ensures Matching(a + b, suffix) == Matching(a, suffix) + Matching(b, suffix)
  {
    if a == [] {
      assert a + b == b;
    } else {
      assert (a + b)[0] == a[0] && (a + b)[1..] == a[1..] + b;
      MatchingAppend(a[1..], b, suffix);
      var head := if HasSuffix(a[0], suffix) then [a[0]] else [];
      assert Matching(a + b, suffix) == head + (Matching(a[1..], suffix) + Matching(b, suffix));
    }
  }

  /** filepath.Glob(Join(dir, "*" + suffix)) over a listing: the paths of the matching entries. */
  function Glob(dir: string, names: seq<string>, suffix: string): (paths: seq<string>)
    ensures |paths| == |Matching(names, suffix)|
    ensures forall i :: 0 <= i < |paths| ==> paths[i] == Join(dir, Matching(names, suffix)[i])
  {
    if names == [] then []
    else (if HasSuffix(names[0], suffix) then [Join(dir, names[0])] else []) + Glob(dir, names[1..], suffix)
  }

  // ---------------------------------------------------------------------
  // The template cache
  // ---------------------------------------------------------------------

  /** A composed template set: its name, the files parsed into it in order, and its helper names. */
  datatype TemplateSet = TemplateSet(name: string, files: seq<string>, helpers: set<string>)

  datatype TemplateError =
    | GlobError(msg: string)
    | NoMatch(pattern: string)
    | ParseError(file: string, msg: string)

  /** The first of `files` that fails to parse, if any. */
  function FirstBroken(files: seq<string>, broken: map<string, string>): (r: Option<string>)
    ensures r.Some? ==> r.value in files && r.value in broken
    ensures r.None? <==> forall i :: 0 <= i < |files| ==> files[i] !in broken
  {
    if files == [] then None
    else if files[0] in broken then Some(files[0])
    else
      FirstBroken(files[1..], broken)
  }

  /** The file FirstBroken reports comes before every other broken file. */
  lemma {:induction false} FirstBrokenIsFirst(files: seq<string>, broken: map<string, string>)
    requires FirstBroken(files, broken).Some?
    ensures exists i :: && 0 <= i < |files| && files[i] == FirstBroken(files, broken).value
                        && forall j :: 0 <= j < i ==> files[j] !in broken
  {
    if files[0] !in broken {
      FirstBrokenIsFirst(files[1..], broken);
      var i :| && 0 <= i < |files[1..]| && files[1..][i] == FirstBroken(files, broken).value
               && forall j :: 0 <= j < i ==> files[1..][j] !in broken;
      assert files[i + 1] == FirstBroken(files, broken).value;
      assert forall j :: 0 <= j < i + 1 ==> files[j] !in broken by {
        forall j | 0 <= j < i + 1 ensures files[j] !in broken {
          if j > 0 {
            assert files[j] == files[1..][j - 1];
          }
        }
      }
    } else {
      assert files[0] == FirstBroken(files, broken).value;
    }
  }

  /**
   * `ts.ParseGlob(Join(dir, "*" + suffix))`: an error when nothing matches,
   * otherwise every match is parsed in order and the first failure stops it.
   */
  function ParseGlob(dir: string, names: seq<string>, suffix: string, broken: map<string, string>)
    : (r: Result<seq<string>, TemplateError>)
    ensures r.Ok? <==> && Glob(dir, names, suffix) != []
                       && forall i :: 0 <= i < |Glob(dir, names, suffix)| ==> Glob(dir, names, suffix)[i] !in broken
    ensures r.Ok? ==> r.value == Glob(dir, names, suffix)
    ensures Glob(dir, names, suffix) == [] ==> r == Err(NoMatch(Join(dir, "*" + suffix)))
    ensures var f := FirstBroken(Glob(dir, names, suffix), broken);
      Glob(dir, names, suffix) != [] && f.Some? ==> r == Err(ParseError(f.value, broken[f.value]))
  {
    var files := Glob(dir, names, suffix);
    if files == [] then Err(NoMatch(Join(dir, "*" + suffix)))
    else match FirstBroken(files, broken)
      case Some(f) => Err(ParseError(f, broken[f]))
      case None => Ok(files)
  }

  /**
   * One page of newTemplateCache: a set named after the page's base name,
   * with the helper map, parsed from the page, then from every layout file,
   * then from every partial file.
   */
  function ComposePage(dir: string, names: seq<string>, page: string, broken: map<string, string>)
    : (r: Result<TemplateSet, TemplateError>)
    ensures r.Ok? <==> && page !in broken
                       && ParseGlob(dir, names, LayoutSuffix, broken).Ok?
                       && ParseGlob(dir, names, PartialSuffix, broken).Ok?
    ensures r.Ok? ==> r.value == TemplateSet(Base(page),
                                             [page] + Glob(dir, names, LayoutSuffix) + Glob(dir, names, PartialSuffix),
                                             Functions().Keys)
    ensures page in broken ==> r == Err(ParseError(page, broken[page]))
    ensures page !in broken && ParseGlob(dir, names, LayoutSuffix, broken).Err?
            ==> r == Err(ParseGlob(dir, names, LayoutSuffix, broken).error)
    ensures page !in broken && ParseGlob(dir, names, LayoutSuffix, broken).Ok? && ParseGlob(dir, names, PartialSuffix, broken).Err?
            ==> r == Err(ParseGlob(dir, names, PartialSuffix, broken).error)
  {
    if page in broken then Err(ParseError(page, broken[page]))
    else match ParseGlob(dir, names, LayoutSuffix, broken)
      case Err(e) => Err(e)
      case Ok(layouts) =>
        match ParseGlob(dir, names, PartialSuffix, broken)
        case Err(e) => Err(e)
        case Ok(partials) => Ok(TemplateSet(Base(page), [page] + layouts + partials, Functions().Keys))
  }

  /** A map keyed by exactly the entries of a repetition-free sequence has one key per entry. */
  lemma {:induction false} KeysOfDistinct<V>(cache: map<string, V>, m: seq<string>)
    requires forall i, j :: 0 <= i < j < |m| ==> m[i] != m[j]
    requires forall n :: n in cache <==> n in m
    ensures |cache| == |m|
  {
    if m != [] {
      var last := m[|m| - 1];
      var rest := cache - {last};
      assert forall n :: n in rest <==> n in m[..|m| - 1] by {
        forall n ensures n in rest <==> n in m[..|m| - 1] {
          if n in m[..|m| - 1] {
            var k :| 0 <= k < |m| - 1 && m[k] == n;
          }
        }
      }
      KeysOfDistinct(rest, m[..|m| - 1]);
      assert rest.Keys == cache.Keys - {last};
    }
  }

  /** Whether the layout and partial globs of a directory both parse. */
  predicate FragmentsParse(dir: string, names: seq<string>, broken: map<string, string>)
  {
    ParseGlob(dir, names, LayoutSuffix, broken).Ok? && ParseGlob(dir, names, PartialSuffix, broken).Ok?
  }

  /** The composed set of one page file: the page, then the layouts, then the partials. */
  lemma ComposeEntry(dir: string, names: seq<string>, name: string, broken: map<string, string>)
    requires name != "" && '/' !in name
    ensures var r := ComposePage(dir, names, Join(dir, name), broken);
      && (r.Ok? <==> Join(dir, name) !in broken && FragmentsParse(dir, names, broken))
      && (r.Ok? ==> r.value == TemplateSet(name, [Join(dir, name)] + Glob(dir, names, LayoutSuffix)
                                                  + Glob(dir, names, PartialSuffix), Functions().Keys))
  {
    BaseOfJoin(dir, name);
  }

  /** What composing one page file gives: ComposePage with the directory's listing and parse failures fixed. */
  function Composer(dir: string, names: seq<string>, broken: map<string, string>)
    : (compose: string -> Result<TemplateSet, TemplateError>)
    ensures forall page :: compose(page) == ComposePage(dir, names, page, broken)
  {
    page => ComposePage(dir, names, page, broken)
  }

  /**
   * The loop of newTemplateCache as a fold over the page files: each page
   * composes in turn and is stored under its name `key(page)`; the first
   * failure ends the fold.
   */
  function ComposeAll(pages: seq<string>, key: string -> string, compose: string -> Result<TemplateSet, TemplateError>)
    : (r: Result<map<string, TemplateSet>, TemplateError>)
    ensures r.Ok? <==> forall j :: 0 <= j < |pages| ==> compose(pages[j]).Ok?
  {
    if pages == [] then Ok(map[])
    else
      var init := pages[..|pages| - 1];
      var page := pages[|pages| - 1];
      assert forall j :: 0 <= j < |init| ==> init[j] == pages[j];
      match ComposeAll(init, key, compose)
      case Err(e) => Err(e)
      case Ok(cache) =>
        match compose(page)
        case Err(e) => Err(e)
        case Ok(ts) => Ok(cache[key(page) := ts])
  }

  /** A failed fold reports the error of the first page that fails to compose. */
  lemma {:induction false} ComposeAllFirstError(pages: seq<string>, key: string -> string, compose: string -> Result<TemplateSet, TemplateError>)
    requires ComposeAll(pages, key, compose).Err?
    ensures exists i :: && 0 <= i < |pages|
                        && compose(pages[i]) == Err(ComposeAll(pages, key, compose).error)
                        && forall j :: 0 <= j < i ==> compose(pages[j]).Ok?
  {
    var init := pages[..|pages| - 1];
    assert forall j :: 0 <= j < |init| ==> init[j] == pages[j];
    if ComposeAll(init, key, compose).Err? {
      ComposeAllFirstError(init, key, compose);
      var i :| && 0 <= i < |init|
               && compose(init[i]) == Err(ComposeAll(init, key, compose).error)
               && forall j :: 0 <= j < i ==> compose(init[j]).Ok?;
      assert forall j :: 0 <= j < i ==> compose(pages[j]).Ok?;
    } else {
      var i := |pages| - 1;
      assert compose(pages[i]) == Err(ComposeAll(pages, key, compose).error);
      assert forall j :: 0 <= j < i ==> compose(pages[j]).Ok?;
    }
  }

  /** On success the fold's keys are exactly the pages' names. */
  lemma {:induction false} ComposeAllKeys(pages: seq<string>, key: string -> string, compose: string -> Result<TemplateSet, TemplateError>)
    requires ComposeAll(pages, key, compose).Ok?
    ensures forall j :: 0 <= j < |pages| ==> key(pages[j]) in ComposeAll(pages, key, compose).value
    ensures forall n :: n in ComposeAll(pages, key, compose).value ==> exists j :: 0 <= j < |pages| && key(pages[j]) == n
  {
    if pages != [] {
      var init := pages[..|pages| - 1];
      assert forall j :: 0 <= j < |init| ==> init[j] == pages[j];
      ComposeAllKeys(init, key, compose);
    }
  }

  /** When the pages' names are listed in `m`, a successful fold is keyed by exactly the entries of `m`. */
  lemma ComposeAllKeysAre(pages: seq<string>, key: string -> string, compose: string -> Result<TemplateSet, TemplateError>,
                          m: seq<string>)
    requires ComposeAll(pages, key, compose).Ok?
    requires |m| == |pages| && forall j :: 0 <= j < |pages| ==> key(pages[j]) == m[j]
    ensures forall n :: n in ComposeAll(pages, key, compose).value <==> n in m
  {
    var cache := ComposeAll(pages, key, compose).value;
    ComposeAllKeys(pages, key, compose);
    forall n | n in m ensures n in cache {
      var j :| 0 <= j < |m| && m[j] == n;
      assert key(pages[j]) == n;
    }
    forall n | n in cache ensures n in m {
      var j :| 0 <= j < |pages| && key(pages[j]) == n;
      assert m[j] == n;
    }
  }

  /** On success every entry of the fold is the composed set of a page with that name. */
  lemma {:induction false} ComposeAllEntries(pages: seq<string>, key: string -> string, compose: string -> Result<TemplateSet, TemplateError>)
    requires ComposeAll(pages, key, compose).Ok?
    ensures var cache := ComposeAll(pages, key, compose).value;
      forall n :: n in cache ==> exists j :: && 0 <= j < |pages| && key(pages[j]) == n
                                             && cache[n] == compose(pages[j]).value
  {
    if pages != [] {
      var init := pages[..|pages| - 1];
      var last := |pages| - 1;
      assert forall j :: 0 <= j < |init| ==> init[j] == pages[j];
      ComposeAllEntries(init, key, compose);
      var before := ComposeAll(init, key, compose).value;
      var cache := ComposeAll(pages, key, compose).value;
      assert cache == before[key(pages[last]) := compose(pages[last]).value];
      forall n | n in cache
        ensures exists j :: && 0 <= j < |pages| && key(pages[j]) == n && cache[n] == compose(pages[j]).value
      {
        if n == key(pages[last]) {
          assert cache[n] == compose(pages[last]).value;
        } else {
          var j :| 0 <= j < |init| && key(init[j]) == n && before[n] == compose(init[j]).value;
          assert cache[n] == compose(pages[j]).value;
        }
      }
    }
  }

  /** One more page of the fold: it stops at that page's failure or stores its set. */
  lemma ComposeAllStep(pages: seq<string>, key: string -> string, compose: string -> Result<TemplateSet, TemplateError>, i: nat)
    requires i < |pages| && ComposeAll(pages[..i], key, compose).Ok?
    ensures var next := ComposeAll(pages[..i + 1], key, compose);
      match compose(pages[i])
      case Err(e) => next == Err(e)
      case Ok(ts) => next == Ok(ComposeAll(pages[..i], key, compose).value[key(pages[i]) := ts])
  {
    assert pages[..i + 1][..i] == pages[..i];
  }

  /** Once a prefix of the pages fails, the whole fold fails with that error. */
  lemma {:induction false} ComposeAllStopsAtError(pages: seq<string>, key: string -> string, compose: string -> Result<TemplateSet, TemplateError>, k: nat)
    requires k <= |pages| && ComposeAll(pages[..k], key, compose).Err?
    ensures ComposeAll(pages, key, compose) == ComposeAll(pages[..k], key, compose)
    decreases |pages|
  {
    if k < |pages| {
      var init := pages[..|pages| - 1];
      assert init[..k] == pages[..k];
      ComposeAllStopsAtError(init, key, compose, k);
    } else {
      assert pages[..k] == pages;
    }
  }

  /** What the template cache of a listing is: the glob error, or the fold over its page files. */
  function TemplateCache(dir: string, names: seq<string>, globErr: Option<string>, broken: map<string, string>)
    : (r: Result<map<string, TemplateSet>, TemplateError>)
    ensures globErr.Some? ==> r == Err(GlobError(globErr.value))
  {
    if globErr.Some? then Err(GlobError(globErr.value))
    else ComposeAll(Glob(dir, names, PageSuffix), Base, Composer(dir, names, broken))
  }

  /** Which listings give a cache: none with a page file that, or a layout or partial glob that, fails. */
  lemma TemplateCacheOk(dir: string, names: seq<string>, broken: map<string, string>)
    requires DirectoryListing(names)
    ensures var pages := Glob(dir, names, PageSuffix);
      TemplateCache(dir, names, None, broken).Ok?
      <==> pages == [] || ((forall j :: 0 <= j < |pages| ==> pages[j] !in broken) && FragmentsParse(dir, names, broken))
  {
    var pages := Glob(dir, names, PageSuffix);
    var m := Matching(names, PageSuffix);
    var compose := Composer(dir, names, broken);
    forall j | 0 <= j < |pages|
      ensures compose(pages[j]).Ok? <==> pages[j] !in broken && FragmentsParse(dir, names, broken)
    {
      ComposeEntry(dir, names, m[j], broken);
    }
    if pages != [] {
      assert compose(pages[0]).Ok? ==> FragmentsParse(dir, names, broken);
    }
  }

  /** Page file `i` is the first one that fails, and it fails with `e`. */
  predicate FirstFailingPage(dir: string, names: seq<string>, broken: map<string, string>, i: int, e: TemplateError)
  {
    var pages := Glob(dir, names, PageSuffix);
    && 0 <= i < |pages|
    && ComposePage(dir, names, pages[i], broken) == Err(e)
    && forall j :: 0 <= j < i ==> ComposePage(dir, names, pages[j], broken).Ok?
  }

  /** A failed cache returns the failure of the first page file that does not compose. */
  lemma TemplateCacheFirstError(dir: string, names: seq<string>, broken: map<string, string>)
    requires TemplateCache(dir, names, None, broken).Err?
    ensures exists i :: FirstFailingPage(dir, names, broken, i, TemplateCache(dir, names, None, broken).error)
  {
    var pages := Glob(dir, names, PageSuffix);
    var compose := Composer(dir, names, broken);
    var e := TemplateCache(dir, names, None, broken).error;
    ComposeAllFirstError(pages, Base, compose);
    var i :| && 0 <= i < |pages| && compose(pages[i]) == Err(e)
             && forall j :: 0 <= j < i ==> compose(pages[j]).Ok?;
    assert FirstFailingPage(dir, names, broken, i, e);
  }

  /**
   * Which error a failed cache returns: the first page file's own parse
   * error, else the layout glob's error, else the partial glob's error, else
   * the parse error of the first page file that fails.
   */
  lemma TemplateCacheError(dir: string, names: seq<string>, broken: map<string, string>)
    ensures var pages := Glob(dir, names, PageSuffix);
      var r := TemplateCache(dir, names, None, broken);
      var layouts := ParseGlob(dir, names, LayoutSuffix, broken);
      var partials := ParseGlob(dir, names, PartialSuffix, broken);
      && (pages != [] && pages[0] in broken ==> r == Err(ParseError(pages[0], broken[pages[0]])))
      && (pages != [] && pages[0] !in broken && layouts.Err? ==> r == Err(layouts.error))
      && (pages != [] && pages[0] !in broken && layouts.Ok? && partials.Err? ==> r == Err(partials.error))
  {
    var pages := Glob(dir, names, PageSuffix);
    if pages != [] && ComposePage(dir, names, pages[0], broken).Err? {
      var compose := Composer(dir, names, broken);
      assert pages[..1] == [pages[0]];
      assert ComposeAll(pages[..1], Base, compose) == Err(ComposePage(dir, names, pages[0], broken).error);
      ComposeAllStopsAtError(pages, Base, compose, 1);
    }
  }

  /** When both fragment globs parse, a failed cache reports the first page file that fails to parse. */
  lemma TemplateCacheFirstBrokenPage(dir: string, names: seq<string>, broken: map<string, string>)
    requires FragmentsParse(dir, names, broken)
    ensures var pages := Glob(dir, names, PageSuffix);
      var f := FirstBroken(pages, broken);
      f.Some? ==> TemplateCache(dir, names, None, broken) == Err(ParseError(f.value, broken[f.value]))
  {
    var pages := Glob(dir, names, PageSuffix);
    var f := FirstBroken(pages, broken);
    if f.Some? {
      FirstBrokenIsFirst(pages, broken);
      var k :| && 0 <= k < |pages| && pages[k] == f.value
               && forall j :: 0 <= j < k ==> pages[j] !in broken;
      assert ComposePage(dir, names, pages[k], broken).Err?;
      TemplateCacheFirstError(dir, names, broken);
      var i :| FirstFailingPage(dir, names, broken, i, TemplateCache(dir, names, None, broken).error);
      assert i == k;
    }
  }

  /** A directory with no page file gives an empty cache and no error. */
  lemma NoPagesEmptyCache(dir: string, names: seq<string>, broken: map<string, string>)
    requires forall i :: 0 <= i < |names| ==> !HasSuffix(names[i], PageSuffix)
    ensures TemplateCache(dir, names, None, broken) == Ok(map[])
  {
    NothingMatches(names, PageSuffix);
  }

  /** A listing with no entry ending in `suffix` matches nothing. */
  lemma {:induction false} NothingMatches(names: seq<string>, suffix: string)
    requires forall i :: 0 <= i < |names| ==> !HasSuffix(names[i], suffix)
    ensures Matching(names, suffix) == []
  {
    if names != [] {
      assert forall i :: 0 <= i < |names[1..]| ==> names[1..][i] == names[i + 1];
      NothingMatches(names[1..], suffix);
    }
  }

  /** The base name of each page path is the matching entry's name. */
  lemma PageNames(dir: string, names: seq<string>)
    requires DirectoryListing(names)
    ensures forall j :: 0 <= j < |Glob(dir, names, PageSuffix)| ==>
      Base(Glob(dir, names, PageSuffix)[j]) == Matching(names, PageSuffix)[j]
  {
    var m := Matching(names, PageSuffix);
    forall j | 0 <= j < |m| ensures Base(Join(dir, m[j])) == m[j] {
      BaseOfJoin(dir, m[j]);
    }
  }

  /** A successful cache has one entry per page file, keyed by the page file's name. */
  lemma TemplateCacheKeys(dir: string, names: seq<string>, broken: map<string, string>)
    requires DirectoryListing(names)
    requires TemplateCache(dir, names, None, broken).Ok?
    ensures var cache := TemplateCache(dir, names, None, broken).value;
      && (forall n :: n in cache <==> n in names && HasSuffix(n, PageSuffix))
      && |cache| == |Glob(dir, names, PageSuffix)|
  {
    var m := Matching(names, PageSuffix);
    PageNames(dir, names);
    ComposeAllKeysAre(Glob(dir, names, PageSuffix), Base, Composer(dir, names, broken), m);
    KeysOfDistinct(TemplateCache(dir, names, None, broken).value, m);
  }

  /** Each entry of a successful cache holds the page, then the layouts, then the partials. */
  lemma TemplateCacheEntries(dir: string, names: seq<string>, broken: map<string, string>)
    requires DirectoryListing(names)
    requires TemplateCache(dir, names, None, broken).Ok?
    ensures var cache := TemplateCache(dir, names, None, broken).value;
      forall n :: n in cache ==>
        cache[n] == TemplateSet(n, [Join(dir, n)] + Glob(dir, names, LayoutSuffix) + Glob(dir, names, PartialSuffix),
                                Functions().Keys)
  {
    var pages := Glob(dir, names, PageSuffix);
    var m := Matching(names, PageSuffix);
    var compose := Composer(dir, names, broken);
    var cache := TemplateCache(dir, names, None, broken).value;
    ComposeAllEntries(pages, Base, compose);
    PageNames(dir, names);
    forall n | n in cache
      ensures cache[n] == TemplateSet(n, [Join(dir, n)] + Glob(dir, names, LayoutSuffix) + Glob(dir, names, PartialSuffix),
                                      Functions().Keys)
    {
      var j :| 0 <= j < |pages| && Base(pages[j]) == n && cache[n] == compose(pages[j]).value;
      ComposeEntry(dir, names, m[j], broken);
    }
  }

  /**
   * `newTemplateCache`: one composed set per page file, keyed by the page's
   * base name. Any glob or parse failure returns the error and no cache;
   * since ParseGlob rejects a pattern that matches nothing, a directory with
   * a page file but no layout file, or no partial file, fails too.
   */
  method NewTemplateCache(dir: string, names: seq<string>, globErr: Option<string>, broken: map<string, string>)
    returns (r: Result<map<string, TemplateSet>, TemplateError>)
    ensures r == TemplateCache(dir, names, globErr, broken)
  {
    if globErr.Some? {
      return Err(GlobError(globErr.value));
    }
    var pages := Glob(dir, names, PageSuffix);
    ghost var compose := Composer(dir, names, broken);
    var cache: map<string, TemplateSet> := map[];
    var i := 0;
    while i < |pages|
      invariant 0 <= i <= |pages|
      invariant ComposeAll(pages[..i], Base, compose) == Ok(cache)
    {
      var page := pages[i];
      var ts := ComposePage(dir, names, page, broken);
      ComposeAllStep(pages, Base, compose, i);
      if ts.Err? {
        ComposeAllStopsAtError(pages, Base, compose, i + 1);
        return Err(ts.error);
      }
      cache := cache[Base(page) := ts.value];
      i := i + 1;
    }
    assert pages[..i] == pages;
    return Ok(cache);
  }

  // ---------------------------------------------------------------------
  // templateData
  // ---------------------------------------------------------------------

  /** A form value; the form helper itself is not part of this model. */
  datatype FormHandle = FormHandle(id: nat)

  /** The values a page template may read; each page fills only the ones it uses. */
  datatype TemplateData = TemplateData(
    csrfToken: string,
    currentYear: int,
    flash: string,
    form: Option<FormHandle>,
    isAuthenticated: bool,
    post: Option<Posts.Post>,
    posts: seq<Posts.Post>)

  /** `templateData{}`: every field at its zero value. */
  const EmptyTemplateData: TemplateData := TemplateData("", 0, "", None, false, None, [])
}

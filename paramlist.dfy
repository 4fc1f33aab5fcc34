/**
 * The pure part of the parameter-list generator: the Python variable name
 * made from a `parameters-*.txt` file name, the line written for each
 * parameter read from such a file, and the expression joining all the
 * per-file lists. Paths use the POSIX separator '/', and whitespace and case
 * are ASCII, as for Python 2 byte strings.
 */
module ParamList {
  import opened Text

  const SEP: char := '/'
  const EXTSEP: char := '.'

  /** str.rfind for one character: the last index holding c, or -1. */
  function RFind(s: string, c: char): (i: int)
    ensures -1 <= i < |s|
    ensures i >= 0 ==> s[i] == c
    ensures forall k :: i < k < |s| ==> s[k] != c
  {
    if s == [] then -1
    else if s[|s| - 1] == c then |s| - 1
    else RFind(s[..|s| - 1], c)
  }

  /** RFind is the index of the last c. */
  lemma RFindIs(s: string, c: char, k: int)
    requires -1 <= k < |s|
    requires k >= 0 ==> s[k] == c
    requires forall j :: k < j < |s| ==> s[j] != c
    ensures RFind(s, c) == k
  {
  }

  /** The last occurrence of c in a + b is in b when b has one, else where it is in a. */
  lemma {:induction false} RFindConcat(a: string, b: string, c: char)
    ensures RFind(a + b, c) == if RFind(b, c) >= 0 then |a| + RFind(b, c) else RFind(a, c)
  {
    if b == [] {
      assert a + b == a;
    } else if b[|b| - 1] != c {
      assert (a + b)[..|a + b| - 1] == a + b[..|b| - 1];
      RFindConcat(a, b[..|b| - 1], c);
    }
  }

  /** Some character of s[from..to] is not a dot. */
  predicate NotAllDots(s: string, from: int, to: int)
    requires 0 <= from && to <= |s|
  {
    exists i :: from <= i < to && s[i] != EXTSEP
  }

  /**
   * os.path.splitext on POSIX: the extension starts at the last '.' after
   * the last '/', unless everything between that '/' and the dot is dots
   * (a hidden file such as ".profile" has no extension).
   */
  function SplitExt(p: string): (r: (string, string))
    ensures r.0 + r.1 == p
    ensures r.1 == "" || (r.1[0] == EXTSEP && SEP !in r.1 && EXTSEP !in r.1[1..])
  {
    var sepIndex := RFind(p, SEP);
    var dotIndex := RFind(p, EXTSEP);
    if dotIndex > sepIndex && NotAllDots(p, sepIndex + 1, dotIndex) then
      assert p[..dotIndex] + p[dotIndex..] == p;
      assert forall k :: 0 <= k < |p[dotIndex..]| ==> p[dotIndex..][k] == p[dotIndex + k];
      (p[..dotIndex], p[dotIndex..])
    else (p, "")
  }

  /**
   * A name has an extension exactly when its last component has a character
   * other than a dot followed, later on, by a dot.
   */
  lemma HasExtensionIff(p: string)
    ensures SplitExt(p).1 != "" <==>
              exists j, i :: 0 <= j < i < |p| && p[j] != EXTSEP && p[i] == EXTSEP && NoSeparatorFrom(p, j)
  {
    var s, d := RFind(p, SEP), RFind(p, EXTSEP);
    if SplitExt(p).1 != "" {
      var j :| s + 1 <= j < d && p[j] != EXTSEP;
      assert 0 <= j < d < |p| && p[j] != EXTSEP && p[d] == EXTSEP && NoSeparatorFrom(p, j);
    }
    if exists j, i :: 0 <= j < i < |p| && p[j] != EXTSEP && p[i] == EXTSEP && NoSeparatorFrom(p, j) {
      var j, i :| 0 <= j < i < |p| && p[j] != EXTSEP && p[i] == EXTSEP && NoSeparatorFrom(p, j);
      assert j < d;
      assert s < j;
      assert NotAllDots(p, s + 1, d);
    }
  }

  /** No '/' from index j on. */
  predicate NoSeparatorFrom(p: string, j: int)
    requires 0 <= j
  {
    forall k :: j <= k < |p| ==> p[k] != SEP
  }

  /** str.split('/')[-1]: what follows the last separator, or all of s. */
  function LastComponent(s: string): (r: string)
    ensures SEP !in r
    ensures exists i :: 0 <= i <= |s| && r == s[i..] && (i == 0 || s[i - 1] == SEP)
  {
    var i := RFind(s, SEP) + 1;
    assert forall k :: 0 <= k < |s[i..]| ==> s[i..][k] == s[i + k];
    s[i..]
  }

  /** str.replace('-', '_'). */
  function ReplaceHyphens(s: string): (r: string)
    ensures |r| == |s|
    ensures forall i :: 0 <= i < |s| ==> r[i] == if s[i] == '-' then '_' else s[i]
  {
    seq(|s|, i requires 0 <= i < |s| => if s[i] == '-' then '_' else s[i])
  }

  /**
   * The file name without its directories and without its extension: what
   * lies between the last '/' (or the start) and the extension.
   */
  function Stem(filename: string): (r: string)
    ensures SEP !in r
    ensures exists i :: 0 <= i <= |filename| && filename == filename[..i] + r + SplitExt(filename).1
                        && (i == 0 || filename[i - 1] == SEP)
  {
    var root := SplitExt(filename).0;
    var i := RFind(root, SEP) + 1;
    var r := LastComponent(root);
    assert r == root[i..];
    assert root == root[..i] + r;
    assert root[..i] == filename[..i];
    r
  }

  /** What one stem character becomes: hyphens turn into underscores, letters into capitals. */
  function VariableChar(c: char): (d: char)
    ensures d != '-' && !('a' <= d <= 'z')
    ensures c != SEP ==> d != SEP
  {
    if c == '-' then '_' else UpperChar(c)
  }

  /**
   * variable_from_filename: the stem, upper-cased, with hyphens made
   * underscores. It has the stem's length, and no '-', no '/' and no lower
   * case letter.
   */
  function VariableFromFilename(filename: string): (v: string)
    ensures |v| == |Stem(filename)|
    ensures forall i :: 0 <= i < |v| ==> v[i] == VariableChar(Stem(filename)[i])
    ensures forall i :: 0 <= i < |v| ==> v[i] != '-' && v[i] != SEP && !('a' <= v[i] <= 'z')
  {
    var stem := Stem(filename);
    assert forall i :: 0 <= i < |stem| ==> stem[i] != SEP by {
      forall i | 0 <= i < |stem| ensures stem[i] != SEP {
        assert stem[i] in stem;
      }
    }
    var v := ReplaceHyphens(Upper(stem));
    assert forall i :: 0 <= i < |v| ==> v[i] == VariableChar(stem[i]);
    v
  }

  /** Directories in front of a file name do not change the variable name. */
  lemma VariableIgnoresDirectory(dir: string, name: string)
    requires SEP !in name
    ensures VariableFromFilename(dir + [SEP] + name) == VariableFromFilename(name)
  {
    SplitExtUnderDirectory(dir, name);
    var root := SplitExt(name).0;
    assert root + SplitExt(name).1 == name;
    assert SEP !in root by {
      forall k | 0 <= k < |root| ensures root[k] != SEP {
        assert root[k] == name[k];
        assert name[k] in name;
      }
    }
    LastAfterSeparator(dir, root);
    assert Stem(dir + [SEP] + name) == Stem(name);
  }

  /** A directory in front of a file name is kept in front of its root. */
  lemma SplitExtUnderDirectory(dir: string, name: string)
    requires SEP !in name
    ensures SplitExt(dir + [SEP] + name).0 == dir + [SEP] + SplitExt(name).0
  {
    var a := dir + [SEP];
    var p := a + name;
    assert p == dir + [SEP] + name;
    RFindIs(name, SEP, -1);
    RFindIs(a, SEP, |dir|);
    RFindConcat(a, name, SEP);
    RFindConcat(a, name, EXTSEP);
    assert RFind(p, SEP) == |dir|;
    assert RFind(a, EXTSEP) < |dir|;
    var dn := RFind(name, EXTSEP);
    if dn >= 0 {
      NotAllDotsShift(a, name, dn);
      if NotAllDots(name, 0, dn) {
        assert p[..|a| + dn] == a + name[..dn];
      }
    }
  }

  lemma NotAllDotsShift(a: string, name: string, dn: nat)
    requires dn <= |name|
    ensures NotAllDots(a + name, |a|, |a| + dn) <==> NotAllDots(name, 0, dn)
  {
    var p := a + name;
    if NotAllDots(name, 0, dn) {
      var i :| 0 <= i < dn && name[i] != EXTSEP;
      assert p[|a| + i] == name[i];
    }
    if NotAllDots(p, |a|, |a| + dn) {
      var i :| |a| <= i < |a| + dn && p[i] != EXTSEP;
      assert name[i - |a|] == p[i];
    }
  }

  lemma LastAfterSeparator(dir: string, name: string)
    requires SEP !in name
    ensures LastComponent(dir + [SEP] + name) == name && LastComponent(name) == name
  {
    RFindConcat(dir + [SEP], name, SEP);
    assert (dir + [SEP] + name)[|dir| + 1..] == name;
  }

  /** A variable name is the stem's characters mapped one by one. */
  lemma VariableOfStem(filename: string, expected: string)
    requires CharsMapTo(Stem(filename), expected)
    ensures VariableFromFilename(filename) == expected
  {
  }

  /** 'list_data/parameters-a320.txt' gives PARAMETERS_A320. */
  lemma ParametersA320()
    ensures VariableFromFilename("list_data/parameters-a320.txt") == "PARAMETERS_A320"
  {
    assert "list_data/parameters-a320.txt" == "list_data" + [SEP] + "parameters-a320.txt";
    VariableIgnoresDirectory("list_data", "parameters-a320.txt");
    A320Variable();
  }

  lemma A320Variable()
    ensures VariableFromFilename("parameters-a320.txt") == "PARAMETERS_A320"
  {
    A320Stem();
    A320Map();
    VariableOfStem("parameters-a320.txt", "PARAMETERS_A320");
  }

  lemma A320Map()
    ensures CharsMapTo("parameters-a320", "PARAMETERS_A320")
  {
    A320Chars();
    FifteenMapTo("parameters-a320", "PARAMETERS_A320");
  }

  /** e is s with each character mapped by VariableChar. */
  predicate CharsMapTo(s: string, e: string)
  {
    |s| == |e| && forall i :: 0 <= i < |s| ==> e[i] == VariableChar(s[i])
  }

  /** Fifteen characters that map one by one. */
  lemma FifteenMapTo(s: string, e: string)
    requires |s| == 15 && |e| == 15
    requires e[0] == VariableChar(s[0]) && e[1] == VariableChar(s[1]) && e[2] == VariableChar(s[2])
    requires e[3] == VariableChar(s[3]) && e[4] == VariableChar(s[4]) && e[5] == VariableChar(s[5])
    requires e[6] == VariableChar(s[6]) && e[7] == VariableChar(s[7]) && e[8] == VariableChar(s[8])
    requires e[9] == VariableChar(s[9]) && e[10] == VariableChar(s[10]) && e[11] == VariableChar(s[11])
    requires e[12] == VariableChar(s[12]) && e[13] == VariableChar(s[13]) && e[14] == VariableChar(s[14])
    ensures CharsMapTo(s, e)
  {
  }

  lemma A320Chars()
    ensures VariableChar('p') == 'P' && VariableChar('a') == 'A' && VariableChar('r') == 'R'
    ensures VariableChar('m') == 'M' && VariableChar('e') == 'E' && VariableChar('t') == 'T'
    ensures VariableChar('s') == 'S' && VariableChar('-') == '_'
    ensures VariableChar('3') == '3' && VariableChar('2') == '2' && VariableChar('0') == '0'
  {
  }

  lemma A320Stem()
    ensures Stem("parameters-a320.txt") == "parameters-a320"
  {
    var name := "parameters-a320.txt";
    RFindIs(name, SEP, -1);
    RFindIs(name, EXTSEP, 15);
    assert name[0] != EXTSEP;
    var stem := name[..15];
    assert SplitExt(name).0 == stem;
    assert stem == "parameters-a320";
    RFindIs(stem, SEP, -1);
    assert stem[0..] == stem;
  }

  /** A hidden file keeps its whole name: ".profile" has no extension. */
  lemma HiddenFileHasNoExtension()
    ensures SplitExt(".profile") == (".profile", "")
    ensures Stem(".profile") == ".profile"
  {
    RFindIs(".profile", SEP, -1);
    RFindIs(".profile", EXTSEP, 0);
    assert ".profile"[0..] == ".profile";
  }

  // ---------------------------------------------------------------------------
  // The lines of a generated list
  // ---------------------------------------------------------------------------

  /** The whitespace str.strip() removes from a byte string. */
  predicate IsSpace(c: char)
  {
    c == ' ' || c == '\t' || c == '\n' || c == '\r' || c == 11 as char || c == 12 as char
  }

  /** Where the first character that is not whitespace is. */
  function LeadingSpace(s: string): (i: nat)
    ensures i <= |s|
    ensures forall k :: 0 <= k < i ==> IsSpace(s[k])
    ensures i < |s| ==> !IsSpace(s[i])
  {
    if s != [] && IsSpace(s[0]) then 1 + LeadingSpace(s[1..]) else 0
  }

  /** Where the trailing whitespace starts. */
  function TrailingSpace(s: string): (j: nat)
    ensures j <= |s|
    ensures forall k :: j <= k < |s| ==> IsSpace(s[k])
    ensures j > 0 ==> !IsSpace(s[j - 1])
  {
    if s != [] && IsSpace(s[|s| - 1]) then TrailingSpace(s[..|s| - 1]) else |s|
  }

  /** Only whitespace before index i and from index j on. */
  predicate Margins(s: string, i: int, j: int)
  {
    && 0 <= i <= j <= |s|
    && (forall k :: 0 <= k < i ==> IsSpace(s[k]))
    && (forall k :: j <= k < |s| ==> IsSpace(s[k]))
  }

  /** r has no whitespace at its ends, and only whitespace surrounds it in s. */
  predicate StrippedOf(s: string, r: string)
  {
    && (r == [] || (!IsSpace(r[0]) && !IsSpace(r[|r| - 1])))
    && exists i, j :: 0 <= i <= j <= |s| && Margins(s, i, j) && r == s[i..j]
  }

  /** str.strip(): leading and trailing whitespace removed. */
  function Strip(s: string): (r: string)
    ensures StrippedOf(s, r)
  {
    var i := LeadingSpace(s);
    var n := TrailingSpace(s[i..]);
    StripMargins(s, i, n);
    s[i..i + n]
  }

  /** Cutting the leading whitespace and then the trailing whitespace leaves a stripped string. */
  lemma StripMargins(s: string, i: nat, n: nat)
    requires i <= |s| && n <= |s[i..]|
    requires forall k :: 0 <= k < i ==> IsSpace(s[k])
    requires i < |s| ==> !IsSpace(s[i])
    requires forall k :: n <= k < |s[i..]| ==> IsSpace(s[i..][k])
    requires n > 0 ==> !IsSpace(s[i..][n - 1])
    ensures StrippedOf(s, s[i..i + n])
  {
    var t, j := s[i..], i + n;
    assert forall k :: j <= k < |s| ==> s[k] == t[k - i];
    if n > 0 {
      assert s[j - 1] == t[n - 1];
    }
    StrippedAt(s, i, j);
  }

  /** s[i..j] is stripped when only whitespace lies outside it and none at its ends. */
  lemma StrippedAt(s: string, i: nat, j: nat)
    requires Margins(s, i, j)
    requires i < j ==> !IsSpace(s[i]) && !IsSpace(s[j - 1])
    ensures StrippedOf(s, s[i..j])
  {
    var r := s[i..j];
    if i < j {
      assert r[0] == s[i] && r[|r| - 1] == s[j - 1];
    }
    assert 0 <= i <= j <= |s| && Margins(s, i, j) && r == s[i..j];
  }

  /** There is only one way to strip a string. */
  lemma StripUnique(s: string, r: string)
    requires StrippedOf(s, r)
    ensures r == Strip(s)
  {
    var t := Strip(s);
    if r == [] {
      EmptyStripAllSpace(s, r);
      if t != [] {
        NonEmptyStripHasText(s, t);
      }
    } else if t == [] {
      EmptyStripAllSpace(s, t);
      NonEmptyStripHasText(s, r);
    } else {
      StripBounds(s, r, t);
    }
  }

  /** A string that strips to nothing is all whitespace. */
  lemma EmptyStripAllSpace(s: string, r: string)
    requires StrippedOf(s, r) && r == []
    ensures forall k :: 0 <= k < |s| ==> IsSpace(s[k])
  {
    var i, j :| 0 <= i <= j <= |s| && Margins(s, i, j) && r == s[i..j];
    assert i == j;
  }

  /** A string strips to nothing exactly when it is all whitespace. */
  lemma StripEmptyIff(s: string)
    ensures Strip(s) == [] <==> forall k :: 0 <= k < |s| ==> IsSpace(s[k])
  {
    var r := Strip(s);
    if r == [] {
      EmptyStripAllSpace(s, r);
    } else {
      NonEmptyStripHasText(s, r);
    }
  }

  /** A non-empty stripped string has a character of s that is not whitespace. */
  lemma NonEmptyStripHasText(s: string, r: string)
    requires StrippedOf(s, r) && r != []
    ensures exists k :: 0 <= k < |s| && !IsSpace(s[k])
  {
    var i, j :| 0 <= i <= j <= |s| && Margins(s, i, j) && r == s[i..j];
    assert s[i] == r[0];
  }

  lemma StripBounds(s: string, r: string, t: string)
    requires StrippedOf(s, r) && StrippedOf(s, t) && r != [] && t != []
    ensures r == t
  {
    var i, j := StrippedSpan(s, r);
    var i', j' := StrippedSpan(s, t);
    SameStart(s, i, i');
    SameEnd(s, j, j');
  }

  /** Where a non-empty stripped string sits in s: between the margins, its ends not whitespace. */
  lemma StrippedSpan(s: string, r: string) returns (i: nat, j: nat)
    requires StrippedOf(s, r) && r != []
    ensures i < j <= |s| && Margins(s, i, j) && r == s[i..j]
    ensures !IsSpace(s[i]) && !IsSpace(s[j - 1])
  {
    i, j :| 0 <= i <= j <= |s| && Margins(s, i, j) && r == s[i..j];
    assert r[0] == s[i] && r[|r| - 1] == s[j - 1];
  }

  lemma SameStart(s: string, i: int, i': int)
    requires 0 <= i < |s| && 0 <= i' < |s| && !IsSpace(s[i]) && !IsSpace(s[i'])
    requires forall k :: 0 <= k < i ==> IsSpace(s[k])
    requires forall k :: 0 <= k < i' ==> IsSpace(s[k])
    ensures i == i'
  {
  }

  lemma SameEnd(s: string, j: int, j': int)
    requires 0 < j <= |s| && 0 < j' <= |s| && !IsSpace(s[j - 1]) && !IsSpace(s[j' - 1])
    requires forall k :: j <= k < |s| ==> IsSpace(s[k])
    requires forall k :: j' <= k < |s| ==> IsSpace(s[k])
    ensures j == j'
  {
  }

  /** Stripping twice is stripping once. */
  lemma StripIdempotent(s: string)
    ensures Strip(Strip(s)) == Strip(s)
  {
    var r := Strip(s);
    assert r == r[0..|r|];
    StripUnique(r, r);
  }

  /** The line written for one parameter: "    '<name>',\n". */
  function ListLine(line: string): (out: string)
    ensures |out| == |Strip(line)| + 8
    ensures out[..5] == "    '" && out[|out| - 3..] == "',\n"
    ensures out[5..|out| - 3] == Strip(line)
  {
    "    '" + Strip(line) + "',\n"
  }

  /** Two lines are written identically exactly when they strip to the same name. */
  lemma ListLineInjective(a: string, b: string)
    ensures ListLine(a) == ListLine(b) <==> Strip(a) == Strip(b)
  {
    if ListLine(a) == ListLine(b) {
      assert ListLine(a)[5..|ListLine(a)| - 3] == ListLine(b)[5..|ListLine(b)| - 3];
    }
  }

  /**
   * writelines over the lines of a parameter file: the first line's list line
   * followed by the rest, at least eight characters per line, nothing for no
   * lines.
   */
  function ListLines(lines: seq<string>): (r: string)
    ensures |r| >= 8 * |lines|
    ensures r == "" <==> lines == []
    ensures lines != [] ==> r == ListLine(lines[0]) + ListLines(lines[1..])
  {
    if lines == [] then "" else ListLine(lines[0]) + ListLines(lines[1..])
  }

  /** Each line of the file contributes its own line, in file order. */
  lemma {:induction false} ListLinesConcat(a: seq<string>, b: seq<string>)
    ensures ListLines(a + b) == ListLines(a) + ListLines(b)
  {
    if a == [] {
      assert a + b == b;
    } else {
      assert (a + b)[1..] == a[1..] + b;
      ListLinesConcat(a[1..], b);
    }
  }

  // ---------------------------------------------------------------------------
  // The aggregate list
  // ---------------------------------------------------------------------------

  const JOINER: string := " +\n    "

  /**
   * str.join: the strings of xs with sep between each two, beginning with the
   * first and ending with the last; a single string is joined to itself.
   */
  function Join(sep: string, xs: seq<string>): (r: string)
    ensures xs == [] ==> r == ""
    ensures |xs| == 1 ==> r == xs[0]
    ensures xs != [] ==> StartsWith(r, xs[0])
    ensures xs != [] ==> |xs[|xs| - 1]| <= |r| && r[|r| - |xs[|xs| - 1]|..] == xs[|xs| - 1]
  {
    if xs == [] then ""
    else if |xs| == 1 then xs[0]
    else xs[0] + sep + Join(sep, xs[1..])
  }

  /** The sum of the lengths of xs. */
  function TotalLength(xs: seq<string>): nat
  {
    if xs == [] then 0 else |xs[0]| + TotalLength(xs[1..])
  }

  /** A join holds every string and one separator between each two. */
  lemma {:induction false} JoinLength(sep: string, xs: seq<string>)
    requires xs != []
    ensures |Join(sep, xs)| == TotalLength(xs) + (|xs| - 1) * |sep|
  {
    if |xs| > 1 {
      JoinLength(sep, xs[1..]);
    }
  }

  /** Appending a string appends a separator and that string. */
  lemma {:induction false} JoinAppend(sep: string, xs: seq<string>, x: string)
    requires xs != []
    ensures Join(sep, xs + [x]) == Join(sep, xs) + sep + x
  {
    if |xs| == 1 {
      assert (xs + [x])[1..] == [x];
    } else {
      assert (xs + [x])[1..] == xs[1..] + [x];
      JoinAppend(sep, xs[1..], x);
    }
  }

  /** The variable names of the files, in order. */
  function VariableNames(files: seq<string>): (names: seq<string>)
    ensures |names| == |files|
    ensures forall i :: 0 <= i < |files| ==> names[i] == VariableFromFilename(files[i])
  {
    seq(|files|, i requires 0 <= i < |files| => VariableFromFilename(files[i]))
  }

  /**
   * liststr: the files' variable names joined with " +\n    ", in file order;
   * one file gives its variable alone, and more begin with the first file's
   * variable and end with the last file's.
   */
  function ListStr(files: seq<string>): (r: string)
    ensures files == [] ==> r == ""
    ensures |files| == 1 ==> r == VariableFromFilename(files[0])
    ensures files != [] ==> StartsWith(r, VariableFromFilename(files[0]))
    ensures files != [] ==> var last := VariableFromFilename(files[|files| - 1]);
              |last| <= |r| && r[|r| - |last|..] == last
  {
    var names := VariableNames(files);
    if files == [] then Join(JOINER, names)
    else
      var first, last := VariableFromFilename(files[0]), VariableFromFilename(files[|files| - 1]);
      assert names[0] == first && names[|names| - 1] == last;
      Join(JOINER, names)
  }

  /** One more file adds " +\n    " and its variable name at the end. */
  lemma ListStrAppend(files: seq<string>, f: string)
    requires files != []
    ensures ListStr(files + [f]) == ListStr(files) + JOINER + VariableFromFilename(f)
  {
    var names, v := VariableNames(files), VariableFromFilename(f);
    assert VariableNames(files + [f]) == names + [v] by {
      assert |VariableNames(files + [f])| == |names + [v]|;
      forall i | 0 <= i < |files| + 1 ensures VariableNames(files + [f])[i] == (names + [v])[i] {
        assert (files + [f])[i] == if i < |files| then files[i] else f;
      }
    }
    JoinAppend(JOINER, names, v);
  }
}

/**
  The crash report and the notification composed from it: the e-mail
  subject and the e-mail body that the collector sends for every report
  it parses.
 */
module Notification {
  import opened Decimal

  type u64 = x: nat | x < 0x1_0000_0000_0000_0000

  /**
    One decoded crash report. The values of `customData` are the rendered
    text of the JSON values the client sent (see README, "Left out").
   */
  datatype Report = Report(
    androidVersion: string,
    appVersionCode: u64,
    appVersionName: string,
    customData: map<string, string>,
    packageName: string,
    reportId: string,
    stackTrace: string)

  const Preamble: string := "A new crash happened:\r\n\r\n"
  const CustomDataHeading: string := "\r\nCustom data:\r\n\r\n"
  const StackTraceHeading: string := "\r\nStack trace:\r\n\r\n"
  const SubjectPrefix: string := "New crash of "

  // ---------------------------------------------------------------------
  // Subject

  function Subject(r: Report): string {
    SubjectPrefix + r.packageName + " (" + r.appVersionName + ")"
  }

  /** The subject is the fixed prefix, the package name, " (", the version name and ")". */
  lemma SubjectFields(r: Report)
    ensures var s, p, v := Subject(r), r.packageName, r.appVersionName;
      && |s| == |SubjectPrefix| + |p| + |v| + 3
      && s[..|SubjectPrefix|] == "New crash of "
      && s[|SubjectPrefix|..|SubjectPrefix| + |p|] == p
      && s[|SubjectPrefix| + |p|..|SubjectPrefix| + |p| + 2] == " ("
      && s[|SubjectPrefix| + |p| + 2..|s| - 1] == v
      && s[|s| - 1] == ')'
  {
  }

  /** Two reports of the same package get the same subject only if their version names agree. */
  lemma SubjectDeterminesVersionName(r1: Report, r2: Report)
    requires r1.packageName == r2.packageName
    requires Subject(r1) == Subject(r2)
    ensures r1.appVersionName == r2.appVersionName
  {
    SubjectFields(r1);
    SubjectFields(r2);
  }

  /** Two reports of the same version name get the same subject only if their packages agree. */
  lemma SubjectDeterminesPackageName(r1: Report, r2: Report)
    requires r1.appVersionName == r2.appVersionName
    requires Subject(r1) == Subject(r2)
    ensures r1.packageName == r2.packageName
  {
    SubjectFields(r1);
    SubjectFields(r2);
  }

  /**
    The subject alone does not determine the pair (package, version name):
    package "a (b" with version "c" and package "a" with version "b (c" both
    give "New crash of a (b (c)".
   */
  lemma SubjectAmbiguous(r1: Report, r2: Report)
    requires r1.packageName == "a (b" && r1.appVersionName == "c"
    requires r2.packageName == "a" && r2.appVersionName == "b (c"
    ensures r1.packageName != r2.packageName && Subject(r1) == Subject(r2)
  {
  }

  // ---------------------------------------------------------------------
  // Body

  function ReportIdLine(r: Report): string {
    "- Report ID: " + r.reportId + "\r\n"
  }

  function VersionLine(r: Report): string {
    "- Version: " + r.appVersionName + " (" + DecimalString(r.appVersionCode) + ")\r\n"
  }

  function AndroidVersionLine(r: Report): string {
    "- Android version: " + r.androidVersion + "\r\n"
  }

  function Header(r: Report): string {
    Preamble + ReportIdLine(r) + VersionLine(r) + AndroidVersionLine(r)
  }

  function CustomLine(key: string, val: string): string {
    "  " + key + " = " + val + "\r\n"
  }

  function StackTraceSection(r: Report): string {
    StackTraceHeading + r.stackTrace
  }

  predicate Distinct(s: seq<string>) {
    forall i, j :: 0 <= i < j < |s| ==> s[i] != s[j]
  }

  /** `order` lists every key of `keys` exactly once: one possible iteration order of a hash map. */
  ghost predicate IsEnumeration(order: seq<string>, keys: set<string>) {
    Distinct(order) && forall k :: k in keys <==> k in order
  }

  /** The custom-data lines, one per key of `order`, in that order. */
  function CustomLines(m: map<string, string>, order: seq<string>): seq<string>
    requires forall k :: k in order ==> k in m
  {
    seq(|order|, i requires 0 <= i < |order| => CustomLine(order[i], m[order[i]]))
  }

  function Concat(parts: seq<string>): string {
    if parts == [] then "" else Concat(parts[..|parts| - 1]) + parts[|parts| - 1]
  }

  function CustomSection(m: map<string, string>, order: seq<string>): string
    requires forall k :: k in order ==> k in m
  {
    if |m| == 0 then "" else CustomDataHeading + Concat(CustomLines(m, order))
  }

  /** The e-mail body for report `r` when its custom data is visited in `order`. */
  function Body(r: Report, order: seq<string>): string
    requires IsEnumeration(order, r.customData.Keys)
  {
    Header(r) + CustomSection(r.customData, order) + StackTraceSection(r)
  }

  /**
    Builds the body piece by piece, as the handler does before it builds
    the message; `order` is the order in which the custom data was visited.
   */
  method ComposeBody(r: Report) returns (text: string, ghost order: seq<string>)
    ensures IsEnumeration(order, r.customData.Keys)
    ensures text == Body(r, order)
    ensures |r.customData| == 0 ==> text == Header(r) + StackTraceSection(r)
  {
    text := "";
    text := text + Preamble;
    text := text + ReportIdLine(r);
    text := text + VersionLine(r);
    text := text + AndroidVersionLine(r);
    assert text == Header(r);
    order := [];
    if |r.customData| != 0 {
      text := text + CustomDataHeading;
      text, order := PushCustomLines(text, r.customData);
    }
    assert text == Header(r) + CustomSection(r.customData, order);
    text := text + StackTraceSection(r);
  }

  /**
    Appends one line "  key = value\r\n" per entry of `m` to `prefix`,
    visiting the keys in an order of its own choosing, as iteration over a
    hash map does; `order` records the order chosen.
   */
  method PushCustomLines(prefix: string, m: map<string, string>) returns (text: string, ghost order: seq<string>)
    ensures IsEnumeration(order, m.Keys)
    ensures text == prefix + Concat(CustomLines(m, order))
    ensures prefix <= text
    ensures |m| == 0 ==> text == prefix
  {
    text := prefix;
    order := [];
    var remaining := m.Keys;
    while remaining != {}
      invariant Distinct(order)
      invariant forall k :: k in m <==> k in remaining || k in order
      invariant forall k :: k in remaining ==> k !in order
      invariant text == prefix + Concat(CustomLines(m, order))
      decreases remaining
    {
      var key :| key in remaining;
      CustomLinesSnoc(m, order, key);
      ghost var done := Concat(CustomLines(m, order));
      assert (prefix + done) + CustomLine(key, m[key]) == prefix + (done + CustomLine(key, m[key]));
      text := text + CustomLine(key, m[key]);
      order := order + [key];
      remaining := remaining - {key};
    }
  }

  lemma CustomLinesSnoc(m: map<string, string>, order: seq<string>, key: string)
    requires forall k :: k in order ==> k in m
    requires key in m
    ensures Concat(CustomLines(m, order + [key])) == Concat(CustomLines(m, order)) + CustomLine(key, m[key])
  {
    var lines := CustomLines(m, order + [key]);
    assert lines[..|lines| - 1] == CustomLines(m, order);
  }

  /** The body opens with the preamble, then the report-ID, version and Android-version lines. */
  lemma BodyBeginsWithHeader(r: Report, order: seq<string>)
    requires IsEnumeration(order, r.customData.Keys)
    ensures Preamble + ReportIdLine(r) + VersionLine(r) + AndroidVersionLine(r) <= Body(r, order)
  {
  }

  /** The body closes with the stack-trace heading and the stack trace, verbatim. */
  lemma BodyEndsWithStackTrace(r: Report, order: seq<string>)
    requires IsEnumeration(order, r.customData.Keys)
    ensures var b, t := Body(r, order), StackTraceHeading + r.stackTrace;
      |t| <= |b| && b[|b| - |t|..] == t
  {
  }

  /** Right after the header comes the custom-data heading exactly when there is custom data. */
  lemma CustomSectionPresentIff(r: Report, order: seq<string>)
    requires IsEnumeration(order, r.customData.Keys)
    ensures CustomDataHeading <= Body(r, order)[|Header(r)|..] <==> |r.customData| != 0
  {
    var rest := Body(r, order)[|Header(r)|..];
    if |r.customData| == 0 {
      assert rest == StackTraceSection(r);
      assert rest[2] == 'S' != 'C' == CustomDataHeading[2];
    } else {
      assert rest == CustomDataHeading + (Concat(CustomLines(r.customData, order)) + StackTraceSection(r));
    }
  }

  // ---------------------------------------------------------------------
  // One line per key

  lemma {:induction false} DistinctSize(s: seq<string>)
    requires Distinct(s)
    ensures |set k | k in s| == |s|
  {
    if s != [] {
      var init := s[..|s| - 1];
      DistinctSize(init);
      assert (set k | k in s) == (set k | k in init) + {s[|s| - 1]};
      assert s[|s| - 1] !in init;
    }
  }

  lemma {:induction false} DistinctCount(s: seq<string>, k: string)
    requires Distinct(s)
    ensures multiset(s)[k] == if k in s then 1 else 0
  {
    if s != [] {
      var init := s[..|s| - 1];
      assert s == init + [s[|s| - 1]];
      DistinctCount(init, k);
    }
  }

  /**
    The custom-data section has exactly as many lines as the map has keys,
    and every key is visited exactly once, so each key has exactly one line.
   */
  lemma OneLinePerKey(m: map<string, string>, order: seq<string>)
    requires IsEnumeration(order, m.Keys)
    ensures |CustomLines(m, order)| == |m|
    ensures forall k :: k in m ==> multiset(order)[k] == 1
    ensures forall i :: 0 <= i < |order| ==> CustomLines(m, order)[i] == CustomLine(order[i], m[order[i]])
  {
    DistinctSize(order);
    assert (set k | k in order) == m.Keys;
    forall k | k in m
      ensures multiset(order)[k] == 1
    {
      DistinctCount(order, k);
    }
  }

  /** Concatenation distributes over the concatenation of the part lists. */
  lemma {:induction false} ConcatAppend(a: seq<string>, b: seq<string>)
    ensures Concat(a + b) == Concat(a) + Concat(b)
  {
    if b != [] {
      var c, b' := a + b, b[..|b| - 1];
      assert c[..|c| - 1] == a + b' && c[|c| - 1] == b[|b| - 1];
      ConcatAppend(a, b');
      calc {
        Concat(c);
        Concat(a + b') + b[|b| - 1];
        Concat(a) + Concat(b') + b[|b| - 1];
        Concat(a) + (Concat(b') + b[|b| - 1]);
        Concat(a) + Concat(b);
      }
    } else {
      assert a + b == a;
    }
  }

  ghost predicate IsInfixAt(part: string, whole: string, offset: nat) {
    offset + |part| <= |whole| && whole[offset..offset + |part|] == part
  }

  lemma InfixExtend(part: string, whole: string, offset: nat, before: string, after: string)
    requires IsInfixAt(part, whole, offset)
    ensures IsInfixAt(part, before + whole + after, |before| + offset)
  {
    var w := before + whole + after;
    assert w[|before| + offset..|before| + offset + |part|] == whole[offset..offset + |part|];
  }

  /** Part `i` of a list stands in the concatenation right after the parts before it. */
  lemma ConcatPartAt(parts: seq<string>, i: nat)
    requires i < |parts|
    ensures IsInfixAt(parts[i], Concat(parts), |Concat(parts[..i])|)
  {
    assert parts == parts[..i] + [parts[i]] + parts[i + 1..];
    ConcatAppend(parts[..i] + [parts[i]], parts[i + 1..]);
    ConcatAppend(parts[..i], [parts[i]]);
    assert Concat([parts[i]]) == parts[i] by {
      assert [parts[i]][..0] == [];
    }
    InfixExtend(parts[i], parts[i], 0, Concat(parts[..i]), Concat(parts[i + 1..]));
    assert parts[i][0..|parts[i]|] == parts[i];
  }

  /** Every key/value pair of the custom data appears in the body as its line "  key = value\r\n". */
  lemma KeyLineInBody(r: Report, order: seq<string>, key: string)
    requires IsEnumeration(order, r.customData.Keys)
    requires key in r.customData
    ensures exists offset :: IsInfixAt(CustomLine(key, r.customData[key]), Body(r, order), offset)
  {
    var m := r.customData;
    var lines := CustomLines(m, order);
    var i :| 0 <= i < |order| && order[i] == key;
    var off := |Concat(lines[..i])|;
    assert IsInfixAt(lines[i], Concat(lines), off) by {
      ConcatPartAt(lines, i);
    }
    var before := Header(r) + CustomDataHeading;
    assert Body(r, order) == before + Concat(lines) + StackTraceSection(r) by {
      assert m.Keys != {};
    }
    InfixExtend(lines[i], Concat(lines), off, before, StackTraceSection(r));
  }

  // ---------------------------------------------------------------------
  // The iteration order does not matter beyond the order of the lines

  /** Dropping element `j` of a list of distinct keys leaves distinct keys: all but that one. */
  lemma RemoveAt(s: seq<string>, j: nat, t: seq<string>)
    requires Distinct(s) && j < |s|
    requires t == s[..j] + s[j + 1..]
    ensures Distinct(t)
    ensures forall k :: k in t <==> k in s && k != s[j]
  {
    forall a, b | 0 <= a < b < |t| ensures t[a] != t[b] {
      var a', b' := if a < j then a else a + 1, if b < j then b else b + 1;
      assert t[a] == s[a'] && t[b] == s[b'];
    }
    forall k ensures k in t <==> k in s && k != s[j] {
      if k in t {
        var b :| 0 <= b < |t| && t[b] == k;
        var b' := if b < j then b else b + 1;
        assert s[b'] == k && b' != j;
      }
      if k in s && k != s[j] {
        var b :| 0 <= b < |s| && s[b] == k;
        if b < j { assert t[b] == k; } else { assert t[b - 1] == k; }
      }
    }
  }

  /** Dropping the last key of `o1` and the same key from `o2` keeps the two lists alike. */
  lemma RemoveMatching(o1: seq<string>, o2: seq<string>, j: nat, init1: seq<string>, rest2: seq<string>)
    requires Distinct(o1) && Distinct(o2) && o1 != []
    requires forall k :: k in o1 <==> k in o2
    requires j < |o2| && o2[j] == o1[|o1| - 1]
    requires init1 == o1[..|o1| - 1] && rest2 == o2[..j] + o2[j + 1..]
    ensures Distinct(init1) && Distinct(rest2)
    ensures forall k :: k in init1 <==> k in rest2
  {
    var n := |o1| - 1;
    RemoveAt(o1, n, init1);
    RemoveAt(o2, j, rest2);
  }

  /** The lines of a key list are those of the list without key `j`, plus the line of key `j`. */
  lemma LinesMultisetRemoveAt(m: map<string, string>, s: seq<string>, j: nat, t: seq<string>)
    requires forall k :: k in s ==> k in m
    requires j < |s| && t == s[..j] + s[j + 1..]
    ensures forall k :: k in t ==> k in m
    ensures multiset(CustomLines(m, s)) == multiset(CustomLines(m, t)) + multiset{CustomLine(s[j], m[s[j]])}
  {
    forall k | k in t ensures k in m {
      var b :| 0 <= b < |t| && t[b] == k;
      assert t[b] == s[if b < j then b else b + 1];
    }
    var lines := CustomLines(m, s);
    assert CustomLines(m, t) == lines[..j] + lines[j + 1..];
    assert lines == lines[..j] + [lines[j]] + lines[j + 1..];
  }

  lemma {:induction false} LinesPermutation(m: map<string, string>, o1: seq<string>, o2: seq<string>)
    requires forall k :: k in o1 ==> k in m
    requires Distinct(o1) && Distinct(o2)
    requires forall k :: k in o1 <==> k in o2
    ensures multiset(CustomLines(m, o1)) == multiset(CustomLines(m, o2))
    decreases |o1|
  {
    if o1 == [] {
      DistinctSize(o1);
      DistinctSize(o2);
      assert (set k | k in o1) == (set k | k in o2);
    } else {
      var n := |o1| - 1;
      var x := o1[n];
      var init1 := o1[..n];
      assert x in o2;
      var j :| 0 <= j < |o2| && o2[j] == x;
      var rest2 := o2[..j] + o2[j + 1..];
      RemoveMatching(o1, o2, j, init1, rest2);
      LinesPermutation(m, init1, rest2);
      LinesMultisetRemoveAt(m, o1, n, init1);
      LinesMultisetRemoveAt(m, o2, j, rest2);
    }
  }

  /**
    Any two iteration orders of the same custom data give the same lines,
    each as often; only their order in the body differs.
   */
  lemma CustomLinesOrderIrrelevant(m: map<string, string>, o1: seq<string>, o2: seq<string>)
    requires IsEnumeration(o1, m.Keys) && IsEnumeration(o2, m.Keys)
    ensures multiset(CustomLines(m, o1)) == multiset(CustomLines(m, o2))
  {
    LinesPermutation(m, o1, o2);
  }
}

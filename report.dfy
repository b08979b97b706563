/**
 * The change report: lines collected under a key (usually a story title),
 * printed once per key in key order.  `ReportGen` is the object the
 * program mutates; the functions before it are the values its methods are
 * proved against.
 */
module Report {
  import opened Base
  import opened Text

  /** One collected line and the section it belongs to. */
  datatype Entry = Entry(key: string, line: string)

  const Divider: string := "----------"

  /** The lines held under `key`; a missing key reads as the empty list. */
  function LinesOf(r: map<string, seq<string>>, key: string): seq<string>
  {
    Get(r, key, [])
  }

  /** `line_to_report`: append one line to its key's list, creating the list if needed. */
  function Record(r: map<string, seq<string>>, e: Entry): (r': map<string, seq<string>>)
    ensures r'.Keys == r.Keys + {e.key}
    ensures LinesOf(r', e.key) == LinesOf(r, e.key) + [e.line]
    ensures forall k :: k != e.key ==> LinesOf(r', k) == LinesOf(r, k)
  {
    r[e.key := LinesOf(r, e.key) + [e.line]]
  }

  /** Recording a sequence of entries, one after the other. */
  function RecordAll(r: map<string, seq<string>>, es: seq<Entry>): map<string, seq<string>>
  {
    if es == [] then r else Record(RecordAll(r, es[..|es| - 1]), es[|es| - 1])
  }

  /** The lines of `es` that belong under `key`, in order. */
  function LinesFor(es: seq<Entry>, key: string): seq<string>
  {
    if es == [] then []
    else LinesFor(es[..|es| - 1], key) + (if es[|es| - 1].key == key then [es[|es| - 1].line] else [])
  }

  function KeysOf(es: seq<Entry>): set<string>
  {
    set e | e in es :: e.key
  }

  /** Each key's list grows by exactly the entries recorded under it, in recording order. */
  lemma {:induction false} RecordAllLines(r: map<string, seq<string>>, es: seq<Entry>, key: string)
    ensures LinesOf(RecordAll(r, es), key) == LinesOf(r, key) + LinesFor(es, key)
  {
    if es != [] {
      RecordAllLines(r, es[..|es| - 1], key);
    }
  }

  /** The report gains exactly the keys of the recorded entries. */
  lemma {:induction false} RecordAllKeys(r: map<string, seq<string>>, es: seq<Entry>)
    ensures RecordAll(r, es).Keys == r.Keys + KeysOf(es)
  {
    if es != [] {
      var front := es[..|es| - 1];
      RecordAllKeys(r, front);
      assert KeysOf(es) == KeysOf(front) + {es[|es| - 1].key} by {
        assert es == front + [es[|es| - 1]];
      }
    }
  }

  lemma {:induction false} RecordAllAppend(r: map<string, seq<string>>, a: seq<Entry>, b: seq<Entry>)
    ensures RecordAll(r, a + b) == RecordAll(RecordAll(r, a), b)
  {
    if b == [] {
      assert a + b == a;
    } else {
      assert (a + b)[..|a + b| - 1] == a + b[..|b| - 1];
      RecordAllAppend(r, a, b[..|b| - 1]);
    }
  }

  /** The common tail of every change line: `"%s %d to %d (delta %d)"`. */
  function Change(valKey: string, oldVal: int, val: int): string
  {
    valKey + " " + FormatInt(oldVal) + " to " + FormatInt(val) + " (delta " + FormatInt(val - oldVal) + ")"
  }

  /** `"'%s' %s%s %d to %d (delta %d)"` of `compare_and_print`. */
  function TitleLine(title: string, extra: string, valKey: string, oldVal: int, val: int): string
  {
    "'" + title + "' " + extra + Change(valKey, oldVal, val)
  }

  /** `"country '%s': %s %d to %d (delta %d)"` of the by-country comparisons. */
  function CountryLine(country: string, valKey: string, oldVal: int, val: int): string
  {
    "country '" + country + "': " + Change(valKey, oldVal, val)
  }

  /** `"chapter %d: '%s' %s %d to %d (delta %d)"` of `compare_and_print_chapter`. */
  function ChapterLine(chNum: int, chTitle: string, valKey: string, oldVal: int, val: int): string
  {
    "chapter " + FormatInt(chNum) + ": '" + chTitle + "' " + Change(valKey, oldVal, val)
  }

  /** `"chapter %d: '%s' for '%s' %s %d to %d (delta %d)"` of `compare_and_print_ctry_chapter`. */
  function CountryChapterLine(chNum: int, chTitle: string, country: string, valKey: string, oldVal: int, val: int): string
  {
    "chapter " + FormatInt(chNum) + ": '" + chTitle + "' for '" + country + "' " + Change(valKey, oldVal, val)
  }

  /** The entry recorded when a value moved, and nothing otherwise. */
  function OnChange(oldVal: int, val: int, e: Entry): seq<Entry>
  {
    if val != oldVal then [e] else []
  }

  /** `false_return`: what a by-country comparison answers for an unchanged value. */
  function CatchupReturn(catchup: bool): nat
  {
    if catchup then 1 else 0
  }

  /** What printing has to go on: the collected lines, the keys already printed, the log so far. */
  datatype ReportState = ReportState(report: map<string, seq<string>>, used: set<string>, output: seq<string>)

  /** One printed section: the key as a heading unless the first line already contains it, then the lines. */
  function Section(key: string, lines: seq<string>): seq<string>
  {
    if lines == [] then []
    else (if IsSubstring(key, lines[0]) then [] else [key]) + lines
  }

  /** `print_keyed_section`: a key prints at most once; reading it creates an empty list. */
  function PrintSection(s: ReportState, key: string): ReportState
  {
    if key in s.used then s
    else
      var lines := LinesOf(s.report, key);
      ReportState(s.report[key := lines], s.used + {key}, s.output + Section(key, lines))
  }

  function PrintKeys(s: ReportState, keys: seq<string>): ReportState
  {
    if keys == [] then s else PrintSection(PrintKeys(s, keys[..|keys| - 1]), keys[|keys| - 1])
  }

  predicate IsLeast(ks: set<string>, m: string)
  {
    m in ks && forall k :: k in ks && k != m ==> StrLess(m, k)
  }

  lemma {:induction false} LeastExists(ks: set<string>)
    requires ks != {}
    ensures exists m :: IsLeast(ks, m)
    decreases |ks|
  {
    var x :| x in ks;
    if ks != {x} {
      var rest := ks - {x};
      LeastExists(rest);
      var m :| IsLeast(rest, m);
      StrLessTotal(m, x);
      if StrLess(m, x) {
        assert IsLeast(ks, m);
      } else {
        forall k | k in ks && k != x ensures StrLess(x, k) {
          if k != m {
            StrLessTransitive(x, m, k);
          }
        }
        assert IsLeast(ks, x);
      }
    } else {
      assert IsLeast(ks, x);
    }
  }

  lemma LeastUnique(ks: set<string>, a: string, b: string)
    requires IsLeast(ks, a) && IsLeast(ks, b)
    ensures a == b
  {
    if a != b {
      StrLessAsymmetric(a, b);
    }
  }

  lemma LeastUniqueAll(ks: set<string>)
    ensures forall a, b :: IsLeast(ks, a) && IsLeast(ks, b) ==> a == b
  {
    forall a, b | IsLeast(ks, a) && IsLeast(ks, b) ensures a == b {
      LeastUnique(ks, a, b);
    }
  }

  function Least(ks: set<string>): (m: string)
    requires ks != {}
    ensures IsLeast(ks, m)
  {
    LeastExists(ks);
    LeastUniqueAll(ks);
    var m :| IsLeast(ks, m); m
  }

  /** `sorted(keys)`: every key once, in increasing code-point order. */
  function SortedKeys(ks: set<string>): (r: seq<string>)
    ensures |r| == |ks|
    ensures forall k :: k in r <==> k in ks
    ensures forall i, j :: 0 <= i < j < |r| ==> StrLess(r[i], r[j])
    decreases |ks|
  {
    if ks == {} then []
    else
      var m := Least(ks);
      var rest := SortedKeys(ks - {m});
      forall j | 0 <= j < |rest| ensures StrLess(m, rest[j]) {
        assert rest[j] in rest;
      }
      [m] + rest
  }

  lemma PrintKeysSnoc(s: ReportState, keys: seq<string>, i: nat)
    requires i < |keys|
    ensures PrintKeys(s, keys[..i + 1]) == PrintSection(PrintKeys(s, keys[..i]), keys[i])
  {
    assert keys[..i + 1][..i] == keys[..i];
  }

  /** `print_report`: unless silent, print every section in key order, then the divider. */
  ghost function PrintAll(s: ReportState, silent: bool): ReportState
  {
    if silent then s
    else
      var p := PrintKeys(s, SortedKeys(s.report.Keys));
      p.(output := p.output + [Divider])
  }

  lemma {:induction false} PrintKeysFacts(s: ReportState, keys: seq<string>)
    requires forall k :: k in keys ==> k in s.report
    ensures PrintKeys(s, keys).report == s.report
    ensures PrintKeys(s, keys).used == s.used + set k | k in keys
  {
    if keys != [] {
      var front := keys[..|keys| - 1];
      PrintKeysFacts(s, front);
      assert (set k | k in keys) == (set k | k in front) + {keys[|keys| - 1]} by {
        assert keys == front + [keys[|keys| - 1]];
      }
    }
  }

  lemma {:induction false} PrintKeysAllUsed(s: ReportState, keys: seq<string>)
    requires forall k :: k in keys ==> k in s.used
    ensures PrintKeys(s, keys) == s
  {
    if keys != [] {
      PrintKeysAllUsed(s, keys[..|keys| - 1]);
    }
  }

  /** Printing a report a second time adds only the divider: each section is printed once. */
  lemma PrintAllTwice(s: ReportState)
    ensures PrintAll(s, false).report == s.report
    ensures PrintAll(s, false).used == s.used + s.report.Keys
    ensures PrintAll(PrintAll(s, false), false).output == PrintAll(s, false).output + [Divider]
  {
    var keys := SortedKeys(s.report.Keys);
    PrintKeysFacts(s, keys);
    var p := PrintAll(s, false);
    PrintKeysAllUsed(p, SortedKeys(p.report.Keys));
  }

  /** A silent report prints nothing. */
  lemma PrintAllSilent(s: ReportState)
    ensures PrintAll(s, true) == s
  {
  }

  class ReportGen {
    var report: map<string, seq<string>>
    const reportTitle: string
    const silent: bool
    /** `false_return`: only ever 0 or 1. */
    var falseReturn: nat
    var usedKeys: set<string>
    /** The log records printed so far: the model of `logging.info`. */
    var output: seq<string>

    function State(): ReportState
      reads this
    {
      ReportState(report, usedKeys, output)
    }

    constructor (reportTitle: string, silent: bool, catchup: bool)
      ensures State() == ReportState(map[], {}, [])
      ensures this.reportTitle == reportTitle && this.silent == silent
      ensures falseReturn == CatchupReturn(catchup)
    {
      report := map[];
      this.reportTitle := reportTitle;
      this.silent := silent;
      falseReturn := if catchup then 1 else 0;
      usedKeys := {};
      output := [];
    }

    method LineToReport(key: string, line: string)
      modifies this`report
      ensures report == Record(old(report), Entry(key, line))
    {
      report := report[key := LinesOf(report, key) + [line]];
    }

    method CompareTotalsByCountry(country: string, valKey: string, val: int, oldVal: int) returns (r: nat)
      modifies this`report
      ensures r == if val != oldVal then 1 else falseReturn
      ensures report == RecordAll(old(report), OnChange(oldVal, val, Entry("Monthly", CountryLine(country, valKey, oldVal, val))))
    {
      if val != oldVal {
        LineToReport("Monthly", CountryLine(country, valKey, oldVal, val));
        return 1;
      }
      return falseReturn;
    }

    method CompareStoryByCountry(sTitle: string, country: string, valKey: string, val: int, oldVal: int) returns (r: nat)
      modifies this`report
      ensures r == if val != oldVal then 1 else falseReturn
      ensures report == RecordAll(old(report), OnChange(oldVal, val, Entry(sTitle, CountryLine(country, valKey, oldVal, val))))
    {
      if val != oldVal {
        LineToReport(sTitle, CountryLine(country, valKey, oldVal, val));
        return 1;
      }
      return falseReturn;
    }

    method CompareAndPrintCtryChapter(country: string, sTitle: string, chNum: int, chTitle: string,
                                      valKey: string, val: int, stored: Option<int>) returns (r: nat)
      modifies this`report
      ensures var oldVal := Get0(stored);
        && r == (if val != oldVal then 1 else falseReturn)
        && report == RecordAll(old(report), OnChange(oldVal, val, Entry(sTitle, CountryChapterLine(chNum, chTitle, country, valKey, oldVal, val))))
    {
      var oldVal := Get0(stored);
      if val != oldVal {
        LineToReport(sTitle, CountryChapterLine(chNum, chTitle, country, valKey, oldVal, val));
        return 1;
      }
      return falseReturn;
    }

    method CompareAndPrintChapter(sTitle: string, chNum: int, chTitle: string,
                                  valKey: string, val: int, stored: Option<int>) returns (r: int)
      modifies this`report
      ensures var oldVal := Get0(stored);
        && r == (if val != oldVal then 1 else 0)
        && report == RecordAll(old(report), OnChange(oldVal, val, Entry(sTitle, ChapterLine(chNum, chTitle, valKey, oldVal, val))))
    {
      var oldVal := Get0(stored);
      if val != oldVal {
        LineToReport(sTitle, ChapterLine(chNum, chTitle, valKey, oldVal, val));
        return 1;
      }
      return 0;
    }

    method CompareAndPrint(title: string, valKey: string, val: int, stored: Option<int>, extra: string) returns (r: int)
      modifies this`report
      ensures var oldVal := Get0(stored);
        && r == (if val != oldVal then 1 else 0)
        && report == RecordAll(old(report), OnChange(oldVal, val, Entry(title, TitleLine(title, extra, valKey, oldVal, val))))
    {
      var oldVal := Get0(stored);
      if val != oldVal {
        LineToReport(title, TitleLine(title, extra, valKey, oldVal, val));
      }
      if val != oldVal {
        return 1;
      }
      return 0;
    }

    method SetCatchup(catchup: bool)
      modifies this`falseReturn
      ensures falseReturn == CatchupReturn(catchup)
    {
      falseReturn := 0;
      if catchup {
        falseReturn := 1;
      }
    }

    /** `get_report_len`: how many keys have a list, including lists created empty by printing. */
    function GetReportLen(): (n: nat)
      reads this
      ensures n == |report.Keys|
    {
      |report.Keys|
    }

    method PrintKeyedSection(key: string)
      modifies this`report, this`usedKeys, this`output
      ensures State() == PrintSection(old(State()), key)
    {
      if key in usedKeys {
        return;
      }
      usedKeys := usedKeys + {key};
      var lines := LinesOf(report, key);
      report := report[key := lines];
      if lines != [] {
        ghost var heading: seq<string> := if IsSubstring(key, lines[0]) then [] else [key];
        if !IsSubstring(key, lines[0]) {
          output := output + [key];
        }
        ghost var start := output;
        assert start == old(output) + heading;
        var i := 0;
        while i < |lines|
          invariant 0 <= i <= |lines|
          invariant output == start + lines[..i]
          invariant report == old(report)[key := lines] && usedKeys == old(usedKeys) + {key}
        {
          output := output + [lines[i]];
          i := i + 1;
        }
        assert lines[..i] == lines;
        assert Section(key, lines) == heading + lines;
        assert output == old(output) + Section(key, lines);
      } else {
        assert old(output) + Section(key, lines) == output;
      }
    }

    method PrintReport()
      modifies this`report, this`usedKeys, this`output
      ensures State() == PrintAll(old(State()), silent)
    {
      if !silent {
        var keys := SortedKeys(report.Keys);
        ghost var s0 := State();
        for i := 0 to |keys|
          invariant State() == PrintKeys(s0, keys[..i])
        {
          PrintKeysSnoc(s0, keys, i);
          PrintKeyedSection(keys[i]);
        }
        assert keys[..|keys|] == keys;
        output := output + [Divider];
      }
    }
  }

  function Get0(stored: Option<int>): int
  {
    if stored.Some? then stored.value else 0
  }
}

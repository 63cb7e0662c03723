/** The two scans of `EilikCFWAnalyzer` (cfw_tools.py) over the bytes of the
    loaded executable: the search for references to the desktop
    application's Python modules, and the extraction of printable strings.
    The bytes the analyser loaded are a parameter; `None` stands for an
    analyser whose executable was never loaded. */
module CfwTools {
  import opened Bytes
  import opened Search

  /** The module names searched for, in the order they are searched. */
  const PYTHON_MODULE_PATTERNS: seq<seq<byte>> := [
    Ascii("FirmwareBase"),
    Ascii("ui_py_files_v2"),
    Ascii("EilikPerameter"),
    Ascii("FirmwareUpdate"),
    Ascii("SearchDevice")
  ]

  /** Bytes kept on each side of a module reference. */
  const MODULE_CONTEXT: nat := 50

  /** `find_python_modules`: nothing (after a console message) when no
      bytes are loaded, and an empty file counts as not loaded; otherwise
      one report per non-overlapping occurrence of each module name, the
      names taken in list order. */
  method FindPythonModules(data: Option<seq<byte>>) returns (modules: Option<seq<Hit>>)
    ensures modules.None? <==> (data.None? || data.value == [])
    ensures modules.Some? ==>
      modules.value == AllHits(data.value, PYTHON_MODULE_PATTERNS, Around(MODULE_CONTEXT))
  {
    if data.None? || data.value == [] {
      return None;
    }
    var found := ScanPatterns(data.value, PYTHON_MODULE_PATTERNS, Around(MODULE_CONTEXT));
    modules := Some(found);
  }

  /** Each module reference is a true occurrence of one of the names, and
      its context is the clamped window of 50 bytes either side, which holds
      the name and is at most 100 bytes longer than it. */
  lemma ModuleReportsHoldTheirName(data: seq<byte>, k: nat)
    requires k < |AllHits(data, PYTHON_MODULE_PATTERNS, Around(MODULE_CONTEXT))|
    ensures var h := AllHits(data, PYTHON_MODULE_PATTERNS, Around(MODULE_CONTEXT))[k];
      h.pattern in PYTHON_MODULE_PATTERNS && OccursAt(data, h.pattern, h.position) &&
      h.context == Slice(data, Max(0, h.position - 50), h.position + |h.pattern| + 50) &&
      HoldsMatchAround(h.pattern, h.position, h.context, 50) &&
      |h.context| <= |h.pattern| + 100
  {
    AroundReport(data, PYTHON_MODULE_PATTERNS, MODULE_CONTEXT, k);
  }

  /** The byte values `extract_strings` treats as text. */
  predicate Printable(b: byte)
  {
    32 <= b <= 126
  }

  /** `chr` of each byte. */
  function Text(bs: seq<byte>): (r: string)
    ensures |r| == |bs| && forall i :: 0 <= i < |bs| ==> r[i] as int == bs[i]
  {
    seq(|bs|, i requires 0 <= i < |bs| => bs[i] as char)
  }

  /** What `extract_strings` may return: at least five characters, each of
      them printable ASCII. */
  predicate LongText(s: string)
  {
    |s| > 4 && forall i :: 0 <= i < |s| ==> 32 <= s[i] as int <= 126
  }

  /** The state of the `extract_strings` loop: the strings kept so far and
      the printable run being collected. */
  datatype StringScan = StringScan(strings: seq<string>, current: string)

  /** One byte of the loop: a printable byte extends the run; any other
      byte ends it, keeping it only when longer than four characters. */
  function ScanByte(s: StringScan, b: byte): StringScan
  {
    if Printable(b) then StringScan(s.strings, s.current + [b as char])
    else StringScan(if |s.current| > 4 then s.strings + [s.current] else s.strings, "")
  }

  /** The loop state after the bytes of `data`, in order. */
  function ScanBytes(data: seq<byte>): StringScan
  {
    if data == [] then StringScan([], "")
    else ScanByte(ScanBytes(data[..|data| - 1]), data[|data| - 1])
  }

  /** `[s for s in strings if len(s) > 4]`. */
  function LongOnly(ss: seq<string>): seq<string>
  {
    if ss == [] then []
    else LongOnly(ss[..|ss| - 1]) + (if |ss[|ss| - 1]| > 4 then [ss[|ss| - 1]] else [])
  }

  /** The result of `extract_strings`. */
  function Strings(data: seq<byte>): seq<string>
  {
    LongOnly(ScanBytes(data).strings)
  }

  /** The run being collected is exactly the longest printable suffix of
      the data seen so far. */
  predicate IsPrintableSuffix(data: seq<byte>, run: string)
  {
    |run| <= |data| &&
    run == Text(data[|data| - |run|..]) &&
    (forall i :: |data| - |run| <= i < |data| ==> Printable(data[i])) &&
    (|run| < |data| ==> !Printable(data[|data| - |run| - 1]))
  }

  /** A printable byte extends the printable suffix by its character. */
  lemma SuffixExtends(init: seq<byte>, run: string, b: byte)
    requires IsPrintableSuffix(init, run) && Printable(b)
    ensures IsPrintableSuffix(init + [b], run + [b as char])
  {
    var data := init + [b];
    var m := |init| - |run|;
    assert data[m..] == init[m..] + [b];
    assert Text(data[m..]) == Text(init[m..]) + [b as char];
    assert forall i :: m <= i < |init| ==> data[i] == init[i];
    if m > 0 {
      assert data[m - 1] == init[m - 1];
    }
  }

  /** After a non-printable byte the printable suffix is empty. */
  lemma SuffixEnds(data: seq<byte>)
    requires data != [] && !Printable(data[|data| - 1])
    ensures IsPrintableSuffix(data, "")
  {
    assert data[|data|..] == [];
  }

  /** The run being collected after some bytes is the printable suffix of
      those bytes. */
  lemma {:induction false} CurrentRunIsSuffix(data: seq<byte>)
    ensures IsPrintableSuffix(data, ScanBytes(data).current)
  {
    if data != [] {
      var init := data[..|data| - 1];
      var b := data[|data| - 1];
      CurrentRunIsSuffix(init);
      if Printable(b) {
        assert data == init + [b];
        SuffixExtends(init, ScanBytes(init).current, b);
      } else {
        SuffixEnds(data);
      }
    }
  }

  /** The loop invariant of `extract_strings`: every kept string is long
      printable text. */
  lemma {:induction false} KeptStringsAreLongText(data: seq<byte>)
    ensures forall k :: 0 <= k < |ScanBytes(data).strings| ==> LongText(ScanBytes(data).strings[k])
  {
    if data != [] {
      var init := data[..|data| - 1];
      var c := ScanBytes(init).current;
      KeptStringsAreLongText(init);
      CurrentRunIsSuffix(init);
      var run := init[|init| - |c|..];
      assert forall i :: 0 <= i < |c| ==> c[i] as int == run[i] && Printable(run[i]);
    }
  }

  /** Filtering strings that are all long keeps every one of them. */
  lemma {:induction false} LongOnlyKeepsLong(ss: seq<string>)
    requires forall k :: 0 <= k < |ss| ==> |ss[k]| > 4
    ensures LongOnly(ss) == ss
  {
    if ss != [] {
      LongOnlyKeepsLong(ss[..|ss| - 1]);
    }
  }

  /** The comprehension at the end of `extract_strings` removes nothing:
      the loop already kept only strings longer than four characters. */
  lemma FinalFilterIsNoOp(data: seq<byte>)
    ensures Strings(data) == ScanBytes(data).strings
  {
    KeptStringsAreLongText(data);
    LongOnlyKeepsLong(ScanBytes(data).strings);
  }

  /** Every extracted string has at least five characters, all printable. */
  lemma StringsAreLongText(data: seq<byte>)
    ensures forall k :: 0 <= k < |Strings(data)| ==> LongText(Strings(data)[k])
  {
    KeptStringsAreLongText(data);
    FinalFilterIsNoOp(data);
  }

  /** Printable bytes only ever extend the current run. */
  lemma {:induction false} PrintableTailKeepsStrings(data: seq<byte>, tail: seq<byte>)
    requires forall i :: 0 <= i < |tail| ==> Printable(tail[i])
    ensures ScanBytes(data + tail).strings == ScanBytes(data).strings
  {
    if tail != [] {
      var init := tail[..|tail| - 1];
      assert (data + tail)[..|data + tail| - 1] == data + init;
      assert (data + tail)[|data + tail| - 1] == tail[|tail| - 1];
      PrintableTailKeepsStrings(data, init);
    } else {
      assert data + tail == data;
    }
  }

  /** A printable run at the very end of the data, with no byte after it
      to end it, is never returned. */
  lemma TrailingRunDropped(data: seq<byte>, tail: seq<byte>)
    requires forall i :: 0 <= i < |tail| ==> Printable(tail[i])
    ensures Strings(data + tail) == Strings(data)
  {
    PrintableTailKeepsStrings(data, tail);
  }

  /** Scanning the data in two pieces, the first ending with no run open. */
  lemma {:induction false} ScanBytesConcat(a: seq<byte>, b: seq<byte>)
    requires ScanBytes(a).current == []
    ensures ScanBytes(a + b) ==
      StringScan(ScanBytes(a).strings + ScanBytes(b).strings, ScanBytes(b).current)
  {
    if b == [] {
      assert a + b == a;
    } else {
      var init := b[..|b| - 1];
      assert (a + b)[..|a + b| - 1] == a + init;
      ScanBytesConcat(a, init);
      var x := b[|b| - 1];
      if !Printable(x) && |ScanBytes(init).current| > 4 {
        assert ScanBytes(a).strings + ScanBytes(init).strings + [ScanBytes(init).current] ==
          ScanBytes(a).strings + (ScanBytes(init).strings + [ScanBytes(init).current]);
      }
    }
  }

  /** Runs are returned in the order they occur: the strings of data that
      starts with a piece ending in a non-printable byte are the strings of
      that piece followed by those of the rest. */
  lemma StringsConcat(a: seq<byte>, b: seq<byte>)
    requires a == [] || !Printable(a[|a| - 1])
    ensures Strings(a + b) == Strings(a) + Strings(b)
  {
    ScanBytesConcat(a, b);
    FinalFilterIsNoOp(a);
    FinalFilterIsNoOp(b);
    FinalFilterIsNoOp(a + b);
  }

  /** A run of printable bytes leaves everything in the current run. */
  lemma {:induction false} PrintableRunScan(run: seq<byte>)
    requires forall i :: 0 <= i < |run| ==> Printable(run[i])
    ensures ScanBytes(run) == StringScan([], Text(run))
  {
    if run != [] {
      var init := run[..|run| - 1];
      PrintableRunScan(init);
      assert Text(run) == Text(init) + [run[|run| - 1] as char];
    }
  }

  /** A printable run ended by a non-printable byte is returned, as text,
      exactly when it is longer than four bytes. */
  lemma TerminatedRun(run: seq<byte>, x: byte)
    requires forall i :: 0 <= i < |run| ==> Printable(run[i])
    requires !Printable(x)
    ensures Strings(run + [x]) == if |run| > 4 then [Text(run)] else []
  {
    PrintableRunScan(run);
    assert (run + [x])[..|run|] == run;
    FinalFilterIsNoOp(run + [x]);
  }

  /** `extract_strings`: the byte loop collecting printable runs, then the
      length filter. */
  method ExtractStrings(data: seq<byte>) returns (strings: seq<string>)
    ensures strings == Strings(data)
  {
    var kept: seq<string> := [];
    var current: string := "";
    for i := 0 to |data|
      invariant StringScan(kept, current) == ScanBytes(data[..i])
    {
      var b := data[i];
      assert data[..i + 1][..i] == data[..i];
      if 32 <= b <= 126 {
        current := current + [b as char];
      } else {
        if |current| > 4 {
          kept := kept + [current];
        }
        current := "";
      }
    }
    assert data[..|data|] == data;
    strings := LongOnly(kept);
  }
}

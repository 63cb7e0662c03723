/** The scans of `FirmwareExtractor` (firmware_extractor.py) over the bytes
    of the loaded executable: firmware file names, embedded archive
    signatures and firmware header signatures. The loaded bytes are a
    parameter; only `search_for_firmware_files` checks that something was
    loaded, and `None` stands for an extractor that loaded nothing. */
module FirmwareExtractor {
  import opened Bytes
  import opened Search

  /** The file-name fragments searched for, in the order they are searched. */
  const FIRMWARE_FILE_PATTERNS: seq<seq<byte>> := [
    Ascii(".bin"), Ascii(".hex"), Ascii(".fw"), Ascii(".firmware"),
    Ascii("firmware"), Ascii("update"), Ascii("bootloader"),
    Ascii("EL_"), Ascii("Eilik_"), Ascii("robot_")
  ]

  /** Bytes kept on each side of a file-name fragment. */
  const FILE_CONTEXT: nat := 100

  /** `search_for_firmware_files`: nothing when no bytes are loaded (an
      empty file counts as not loaded); otherwise one report per
      non-overlapping occurrence of each fragment, fragments in list order. */
  method SearchForFirmwareFiles(data: Option<seq<byte>>) returns (found: Option<seq<Hit>>)
    ensures found.None? <==> (data.None? || data.value == [])
    ensures found.Some? ==>
      found.value == AllHits(data.value, FIRMWARE_FILE_PATTERNS, Around(FILE_CONTEXT))
  {
    if data.None? || data.value == [] {
      return None;
    }
    var files := ScanPatterns(data.value, FIRMWARE_FILE_PATTERNS, Around(FILE_CONTEXT));
    found := Some(files);
  }

  /** Each report is a true occurrence of one of the fragments; its context
      is the clamped window of 100 bytes either side, holds the fragment and
      is at most 200 bytes longer than it. */
  lemma FileReportsHoldTheirFragment(data: seq<byte>, k: nat)
    requires k < |AllHits(data, FIRMWARE_FILE_PATTERNS, Around(FILE_CONTEXT))|
    ensures var h := AllHits(data, FIRMWARE_FILE_PATTERNS, Around(FILE_CONTEXT))[k];
      h.pattern in FIRMWARE_FILE_PATTERNS && OccursAt(data, h.pattern, h.position) &&
      h.context == Slice(data, Max(0, h.position - 100), h.position + |h.pattern| + 100) &&
      HoldsMatchAround(h.pattern, h.position, h.context, 100) &&
      |h.context| <= |h.pattern| + 200
  {
    AroundReport(data, FIRMWARE_FILE_PATTERNS, FILE_CONTEXT, k);
  }

  /** The archive formats `extract_embedded_resources` tells apart. */
  datatype ResourceKind = Zip | Gzip

  /** A dictionary of `extract_zip_resource` or `extract_gzip_resource`. */
  datatype Resource = Resource(kind: ResourceKind, position: nat, data: seq<byte>)

  /** Local-file header and data-descriptor signatures of ZIP, and the GZIP
      magic with its deflate method byte, in the order they are searched. */
  const RESOURCE_SIGNATURES: seq<seq<byte>> := [
    [0x50, 0x4B, 0x03, 0x04],
    [0x1F, 0x8B, 0x08],
    [0x50, 0x4B, 0x07, 0x08]
  ]

  /** Bytes kept from the start of a resource. */
  const RESOURCE_LENGTH: nat := 1000

  /** The branch on the signature: one starting with "PK" is a ZIP, one
      starting with 1F 8B a GZIP, and any other yields no entry. */
  function KindOf(sig: seq<byte>): Option<ResourceKind>
  {
    if |sig| >= 2 && sig[0] == 0x50 && sig[1] == 0x4B then Some(Zip)
    else if |sig| >= 2 && sig[0] == 0x1F && sig[1] == 0x8B then Some(Gzip)
    else None
  }

  /** The entries for the reports of one signature. */
  function Tagged(hits: seq<Hit>, kind: Option<ResourceKind>): seq<Resource>
  {
    if kind.None? then []
    else seq(|hits|, k requires 0 <= k < |hits| => Resource(kind.value, hits[k].position, hits[k].context))
  }

  /** The entries of a scan for several signatures, signatures in order. */
  function EmbeddedResources(data: seq<byte>, sigs: seq<seq<byte>>): seq<Resource>
    requires NonEmptyPatterns(sigs)
  {
    if sigs == [] then []
    else (EmbeddedResources(data, sigs[..|sigs| - 1]) +
      Tagged(Hits(data, sigs[|sigs| - 1], Ahead(RESOURCE_LENGTH)), KindOf(sigs[|sigs| - 1])))
  }

  /** When every signature has a kind, there is one entry per report, at
      the report's position, holding its bytes, of the kind of its
      signature. */
  lemma {:induction false} OneEntryPerOccurrence(data: seq<byte>, sigs: seq<seq<byte>>)
    requires NonEmptyPatterns(sigs)
    requires forall k :: 0 <= k < |sigs| ==> KindOf(sigs[k]).Some?
    ensures |EmbeddedResources(data, sigs)| == |AllHits(data, sigs, Ahead(RESOURCE_LENGTH))|
    ensures forall k :: 0 <= k < |EmbeddedResources(data, sigs)| ==>
      KindOf(AllHits(data, sigs, Ahead(RESOURCE_LENGTH))[k].pattern) ==
        Some(EmbeddedResources(data, sigs)[k].kind) &&
      EmbeddedResources(data, sigs)[k].position == AllHits(data, sigs, Ahead(RESOURCE_LENGTH))[k].position &&
      EmbeddedResources(data, sigs)[k].data == AllHits(data, sigs, Ahead(RESOURCE_LENGTH))[k].context
  {
    if sigs != [] {
      var n := |sigs| - 1;
      var last := sigs[n];
      OneEntryPerOccurrence(data, sigs[..n]);
      HitsSound(data, last, Ahead(RESOURCE_LENGTH));
      var front := EmbeddedResources(data, sigs[..n]);
      var hitsFront := AllHits(data, sigs[..n], Ahead(RESOURCE_LENGTH));
      var back := Hits(data, last, Ahead(RESOURCE_LENGTH));
      var all := AllHits(data, sigs, Ahead(RESOURCE_LENGTH));
      var r := EmbeddedResources(data, sigs);
      assert r == front + Tagged(back, KindOf(last));
      assert all == hitsFront + back;
      forall k | |front| <= k < |r|
        ensures KindOf(all[k].pattern) == Some(r[k].kind) &&
          r[k].position == all[k].position && r[k].data == all[k].context
      {
        assert all[k] == back[k - |front|];
      }
    }
  }

  /** `extract_embedded_resources`: one entry per non-overlapping
      occurrence of each signature, signatures in list order. */
  method ExtractEmbeddedResources(data: seq<byte>) returns (resources: seq<Resource>)
    ensures resources == EmbeddedResources(data, RESOURCE_SIGNATURES)
  {
    resources := [];
    for i := 0 to |RESOURCE_SIGNATURES|
      invariant resources == EmbeddedResources(data, RESOURCE_SIGNATURES[..i])
    {
      var sig := RESOURCE_SIGNATURES[i];
      var hits := ScanPattern(data, sig, Ahead(RESOURCE_LENGTH));
      assert RESOURCE_SIGNATURES[..i + 1][..i] == RESOURCE_SIGNATURES[..i];
      resources := resources + Tagged(hits, KindOf(sig));
    }
    assert RESOURCE_SIGNATURES[..|RESOURCE_SIGNATURES|] == RESOURCE_SIGNATURES;
  }

  /** Both "PK" signatures, the data-descriptor one included, take the ZIP
      branch and the remaining one the GZIP branch; all fit in the bytes an
      entry keeps. */
  lemma SignaturesHaveKinds()
    ensures KindOf(RESOURCE_SIGNATURES[0]) == Some(Zip)
    ensures KindOf(RESOURCE_SIGNATURES[1]) == Some(Gzip)
    ensures KindOf(RESOURCE_SIGNATURES[2]) == Some(Zip)
    ensures forall k :: 0 <= k < |RESOURCE_SIGNATURES| ==>
      KindOf(RESOURCE_SIGNATURES[k]).Some? && 2 <= |RESOURCE_SIGNATURES[k]| <= RESOURCE_LENGTH
  {
    assert |RESOURCE_SIGNATURES| == 3;
  }

  /** Entry `e` is the one for report `h`: at the position of a true
      occurrence of its signature, of kind ZIP exactly when the signature
      starts with "PK", holding the 1000 bytes from the signature on (or
      what is left of the data), which start with the signature. */
  predicate EntryFor(data: seq<byte>, e: Resource, h: Hit)
  {
    e.position == h.position && OccursAt(data, h.pattern, h.position) &&
    2 <= |h.pattern| <= |e.data| &&
    (e.kind == Zip <==> h.pattern[..2] == [0x50, 0x4B]) &&
    |e.data| == Min(1000, |data| - e.position) && e.data[..|h.pattern|] == h.pattern
  }

  lemma EntryForReport(data: seq<byte>, e: Resource, h: Hit)
    requires OccursAt(data, h.pattern, h.position) && 2 <= |h.pattern| <= RESOURCE_LENGTH
    requires h.context == Context(data, h.pattern, h.position, Ahead(RESOURCE_LENGTH))
    requires e.position == h.position && e.data == h.context && KindOf(h.pattern) == Some(e.kind)
    ensures EntryFor(data, e, h)
  {
    AheadContextStartsWithMatch(data, h.pattern, h.position, RESOURCE_LENGTH);
    assert h.pattern[..2] == [0x50, 0x4B] <==> h.pattern[0] == 0x50 && h.pattern[1] == 0x4B;
  }

  /** Every entry of the scan is the entry for the report of the same
      index, and that report is of one of the signatures. */
  lemma ResourceEntry(data: seq<byte>, sigs: seq<seq<byte>>, k: nat)
    requires NonEmptyPatterns(sigs)
    requires forall j :: 0 <= j < |sigs| ==> KindOf(sigs[j]).Some? && 2 <= |sigs[j]| <= RESOURCE_LENGTH
    requires k < |EmbeddedResources(data, sigs)|
    ensures |EmbeddedResources(data, sigs)| == |AllHits(data, sigs, Ahead(RESOURCE_LENGTH))|
    ensures AllHits(data, sigs, Ahead(RESOURCE_LENGTH))[k].pattern in sigs
    ensures EntryFor(data, EmbeddedResources(data, sigs)[k], AllHits(data, sigs, Ahead(RESOURCE_LENGTH))[k])
  {
    var r := EmbeddedResources(data, sigs);
    var all := AllHits(data, sigs, Ahead(RESOURCE_LENGTH));
    OneEntryPerOccurrence(data, sigs);
    AllHitsSound(data, sigs, Ahead(RESOURCE_LENGTH));
    var j :| 0 <= j < |sigs| && sigs[j] == all[k].pattern;
    EntryForReport(data, r[k], all[k]);
  }

  /** Bootloader signatures in both byte orders, the ELF magic and the PE
      "MZ", in the order they are searched. */
  const FIRMWARE_HEADERS: seq<seq<byte>> := [
    [0x55, 0xAA],
    [0xAA, 0x55],
    [0x7F, 0x45, 0x4C, 0x46],
    [0x4D, 0x5A]
  ]

  /** Bytes kept from the start of a header. */
  const HEADER_CONTEXT: nat := 50

  /** `analyze_firmware_structure`: one indicator per non-overlapping
      occurrence of each header, headers in list order. */
  method AnalyzeFirmwareStructure(data: seq<byte>) returns (indicators: seq<Hit>)
    ensures indicators == AllHits(data, FIRMWARE_HEADERS, Ahead(HEADER_CONTEXT))
  {
    indicators := ScanPatterns(data, FIRMWARE_HEADERS, Ahead(HEADER_CONTEXT));
  }

  /** Each indicator is a true occurrence of one of the headers, and its
      context is the 50 bytes from the header on (or what is left of the
      data), beginning with the header. */
  lemma IndicatorsStartWithHeader(data: seq<byte>, k: nat)
    requires k < |AllHits(data, FIRMWARE_HEADERS, Ahead(HEADER_CONTEXT))|
    ensures var h := AllHits(data, FIRMWARE_HEADERS, Ahead(HEADER_CONTEXT))[k];
      h.pattern in FIRMWARE_HEADERS && OccursAt(data, h.pattern, h.position) &&
      |h.context| == Min(50, |data| - h.position) &&
      h.context[..|h.pattern|] == h.pattern
  {
    AheadReport(data, FIRMWARE_HEADERS, HEADER_CONTEXT, k);
  }
}

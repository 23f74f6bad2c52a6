/** The local definition loaders of `BotsService`: `getRepoFlows` (the texts of the `.csml`
    files of the `flows` directory) and `getRepoAirules` (the parsed `airules.json`, or `[]`).
    The filesystem and JSON.parse are inputs: a directory listing with the file texts, and
    the outcome of reading and parsing the rules file. */
module Loader {
  import opened Json
  import opened Sequences

  /** One entry of `readdirSync('flows')`, with the text `readFileSync` would return for it. */
  datatype DirEntry = DirEntry(fileName: string, text: string)

  /** `s.endsWith(suffix)`. */
  predicate EndsWith(s: string, suffix: string)
  {
    |suffix| <= |s| && s[|s| - |suffix|..] == suffix
  }

  /** The filter of `getRepoFlows`: the entry's name ends with `.csml`. */
  predicate IsFlowFile(e: DirEntry)
  {
    EndsWith(e.fileName, ".csml")
  }

  /** The texts `getRepoFlows` returns: nothing when the `flows` directory is absent
      (`None`), otherwise the text of every `.csml` entry in directory order. */
  function RepoFlowTexts(flowsDir: Option<seq<DirEntry>>): seq<string>
  {
    match flowsDir
    case None => []
    case Some(entries) => FlowTexts(entries)
  }

  function FlowTexts(entries: seq<DirEntry>): seq<string>
    decreases |entries|
  {
    if entries == [] then []
    else
      var e := entries[|entries| - 1];
      FlowTexts(entries[..|entries| - 1]) + (if IsFlowFile(e) then [e.text] else [])
  }

  /** `getRepoFlows()`: the `forEach` over the directory listing pushing each `.csml` text. */
  method GetRepoFlows(flowsDir: Option<seq<DirEntry>>) returns (flows: seq<string>)
    ensures flows == RepoFlowTexts(flowsDir)
  {
    flows := [];
    if flowsDir.Some? {
      var entries := flowsDir.value;
      var i := 0;
      while i < |entries|
        invariant 0 <= i <= |entries|
        invariant flows == FlowTexts(entries[..i])
      {
        assert entries[..i + 1][..i] == entries[..i];
        var fileName := entries[i].fileName;
        if EndsWith(fileName, ".csml") {
          flows := flows + [entries[i].text];
        }
        i := i + 1;
      }
      assert entries[..i] == entries;
    }
  }

  /** The loaded flows are exactly the texts of the `.csml` entries, in directory order: the
      k-th text is that of the k-th entry whose name ends with `.csml`. */
  lemma {:induction false} FlowTextsAt(entries: seq<DirEntry>)
    ensures var ps := Positions(entries, IsFlowFile);
      |FlowTexts(entries)| == |ps| &&
      forall k :: 0 <= k < |ps| ==> FlowTexts(entries)[k] == entries[ps[k]].text
    decreases |entries|
  {
    if entries != [] {
      FlowTextsAt(entries[..|entries| - 1]);
    }
  }

  /** `airules.json` as the loader meets it. `Present(None)` stands for a file whose reading
      or JSON.parse throws. */
  datatype AirulesFile = Absent | Present(parsed: Option<Json>)

  /** Whether line 27, `${airules.length}`, throws for the parsed rules: reading a property
      of `null` throws, and so does printing a `length` property whose conversion throws.
      Arrays and strings have a numeric length; other values have none (`undefined`). */
  predicate LengthReportThrows(v: Json)
  {
    match v
    case JNull => true
    case JObj(fields) => "length" in fields && TextConversionThrows(fields["length"])
    case _ => false
  }

  /** `getRepoAirules()`: `[]` when the file is absent; the parsed value otherwise, except
      that everything thrown inside the `try` falls back to `[]`: a parse failure, and a
      parsed value whose `.length` cannot be read or printed (`null`, or an object whose
      `length` holds an object with a `toString` property). */
  function GetRepoAirules(file: AirulesFile): (rules: Json)
    ensures rules != JNull
    ensures file.Absent? ==> rules == JArr([])
    ensures file.Present? && file.parsed.None? ==> rules == JArr([])
    ensures file.Present? && file.parsed.Some? && LengthReportThrows(file.parsed.value) ==>
      rules == JArr([])
    ensures file.Present? && file.parsed.Some? && !LengthReportThrows(file.parsed.value) ==>
      rules == file.parsed.value
  {
    match file
    case Absent => JArr([])
    case Present(None) => JArr([])
    case Present(Some(v)) => if LengthReportThrows(v) then JArr([]) else v
  }

  /** Rules files that report a length and are kept: every array and string, and every
      object whose `length` is missing or printable; a file whose `length` holds
      `{"toString": 0}` is replaced by `[]`. */
  lemma AirulesKept(items: seq<Json>, s: string, fields: map<string, Json>)
    ensures GetRepoAirules(Present(Some(JArr(items)))) == JArr(items)
    ensures GetRepoAirules(Present(Some(JStr(s)))) == JStr(s)
    ensures "length" !in fields ==> GetRepoAirules(Present(Some(JObj(fields)))) == JObj(fields)
    ensures GetRepoAirules(Present(Some(JObj(map["length" := JObj(map["toString" := JNum(0.0)])])))) == JArr([])
  {
  }

  /** Whether `updateBot` sends `PUT /api/bot`: `if (airules)` skips it only for a rules file
      that holds `false`, `0` or `""`. An absent, unparsable or empty-array file still sends
      it (an array is always truthy). */
  lemma AirulesPushed(file: AirulesFile)
    ensures Truthy(GetRepoAirules(file)) <==>
      !(file.Present? && file.parsed.Some? &&
        file.parsed.value in {JBool(false), JNum(0.0), JStr("")})
    ensures file.Absent? || file.parsed.None? ==> GetRepoAirules(file) == JArr([])
  {
  }
}

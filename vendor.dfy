/**
 * Decoding the vendor's multi-facility forecast response into per-facility
 * readings, and laying the mapped facilities out as the columns of the raw
 * forecast frame (FES_MasterScript_PRODUCTION.py, grab_forecast_data).
 *
 * A facility's forecast string is a ':'-separated list of "epoch~kW" fields,
 * usually with a leading ':'. A field without a '~' is skipped; a field whose
 * numbers do not parse aborts the whole download.
 */
module VendorForecast {
  import opened Outcomes
  import opened Numeric
  import opened Text
  import opened Columns

  /** One entry of the response: a facility id and its forecast string. */
  datatype FacilityForecast = FacilityForecast(facilityId: string, forecastData: string)

  /** One reading: the epoch second it is for and its value in MW. */
  datatype Reading = Reading(timestamp: int, mw: real)

  /**
   * The decoded response: every timestamp seen in any facility, and each
   * facility's readings keyed by timestamp.
   */
  datatype Decoded = Decoded(timestamps: set<int>, facilities: map<string, map<int, real>>)

  /** One "epoch~kW" field: skipped without a '~', a failure when a number does not parse. */
  function ParseField(field: string): Result<Option<Reading>>
  {
    var parts := Split(field, '~');
    if |parts| < 2 then Ok(None)
    else
      match ParseInt(parts[0])
      case None => Err(BadNumber(parts[0]))
      case Some(ts) =>
        match ParseDecimal(parts[1])
        case None => Err(BadNumber(parts[1]))
        case Some(kw) => Ok(Some(Reading(ts, kw / 1000.0)))
  }

  /** The fields of a forecast string, without the empty field a leading ':' produces. */
  function Fields(data: string): seq<string>
  {
    Trimmed(Split(data, ':'))
  }

  /** The pieces of a split without a leading empty one. */
  function Trimmed(pieces: seq<string>): seq<string>
    requires |pieces| >= 1
  {
    if pieces[0] == "" then pieces[1..] else pieces
  }

  /** Each field parsed on its own. */
  function ParsedFields(fields: seq<string>): (parsed: seq<Result<Option<Reading>>>)
    ensures |parsed| == |fields|
  {
    seq(|fields|, k requires 0 <= k < |fields| => ParseField(fields[k]))
  }

  /** The readings of parsed fields, in order; the first failure decides the outcome. */
  function Collect(parsed: seq<Result<Option<Reading>>>): Result<seq<Reading>>
  {
    if parsed == [] then Ok([])
    else
      match Collect(parsed[..|parsed| - 1])
      case Err(e) => Err(e)
      case Ok(rs) =>
        match parsed[|parsed| - 1]
        case Err(e) => Err(e)
        case Ok(None) => Ok(rs)
        case Ok(Some(r)) => Ok(rs + [r])
  }

  /** The readings of one forecast string. */
  function DataReadings(data: string): Result<seq<Reading>>
  {
    Collect(ParsedFields(Fields(data)))
  }

  function EntryReadings(item: FacilityForecast): Result<seq<Reading>>
  {
    DataReadings(item.forecastData)
  }

  /** The readings stored one after another into an empty dict. */
  function Store(rs: seq<Reading>): map<int, real>
  {
    if rs == [] then map[]
    else Store(rs[..|rs| - 1])[rs[|rs| - 1].timestamp := rs[|rs| - 1].mw]
  }

  function Stamps(rs: seq<Reading>): set<int>
  {
    set r | r in rs :: r.timestamp
  }

  /** A response entry after parsing: its facility id and its readings, or the failure. */
  type Entry = (string, Result<seq<Reading>>)

  function Entries(items: seq<FacilityForecast>): (es: seq<Entry>)
    ensures |es| == |items|
  {
    seq(|items|, k requires 0 <= k < |items| => (items[k].facilityId, EntryReadings(items[k])))
  }

  /** Parsed entries put together in order; an entry for a facility seen before replaces it. */
  function Assemble(entries: seq<Entry>): Result<Decoded>
  {
    if entries == [] then Ok(Decoded({}, map[]))
    else
      match Assemble(entries[..|entries| - 1])
      case Err(e) => Err(e)
      case Ok(d) =>
        var (id, readings) := entries[|entries| - 1];
        match readings
        case Err(e) => Err(e)
        case Ok(rs) => Ok(Decoded(d.timestamps + Stamps(rs), d.facilities[id := Store(rs)]))
  }

  /** The whole response decoded. */
  function DecodeAll(items: seq<FacilityForecast>): Result<Decoded>
  {
    Assemble(Entries(items))
  }

  lemma {:induction false} CollectErrorPersists(parsed: seq<Result<Option<Reading>>>, m: nat)
    requires m <= |parsed| && Collect(parsed[..m]).Err?
    ensures Collect(parsed) == Collect(parsed[..m])
  {
    if m < |parsed| {
      var p := parsed[..|parsed| - 1];
      assert p[..m] == parsed[..m];
      CollectErrorPersists(p, m);
    } else {
      assert parsed[..m] == parsed;
    }
  }

  lemma {:induction false} AssembleErrorPersists(entries: seq<Entry>, m: nat)
    requires m <= |entries| && Assemble(entries[..m]).Err?
    ensures Assemble(entries) == Assemble(entries[..m])
  {
    if m < |entries| {
      var p := entries[..|entries| - 1];
      assert p[..m] == entries[..m];
      AssembleErrorPersists(p, m);
    } else {
      assert entries[..m] == entries;
    }
  }

  /** A failed field decides the outcome of the whole string. */
  lemma CollectStepErr(parsed: seq<Result<Option<Reading>>>, m: nat)
    requires m < |parsed| && Collect(parsed[..m]).Ok? && parsed[m].Err?
    ensures Collect(parsed) == Err(parsed[m].error)
  {
    assert parsed[..m + 1][..m] == parsed[..m];
    CollectErrorPersists(parsed, m + 1);
  }

  /** A field without a reading leaves the readings as they are. */
  lemma CollectStepSkip(parsed: seq<Result<Option<Reading>>>, start: nat, i: nat, rs: seq<Reading>)
    requires start <= i < start + |parsed| && Collect(parsed[..i - start]) == Ok(rs) && parsed[i - start] == Ok(None)
    ensures Collect(parsed[..i + 1 - start]) == Ok(rs)
  {
    var m := i - start;
    assert parsed[..i + 1 - start] == parsed[..m + 1];
    assert parsed[..m + 1][..m] == parsed[..m];
  }

  /** A reading extends the readings, the dict and the timestamps. */
  lemma CollectStepRead(parsed: seq<Result<Option<Reading>>>, start: nat, i: nat, rs: seq<Reading>, r: Reading)
    requires start <= i < start + |parsed| && Collect(parsed[..i - start]) == Ok(rs) && parsed[i - start] == Ok(Some(r))
    ensures Collect(parsed[..i + 1 - start]) == Ok(rs + [r])
    ensures Store(rs + [r]) == Store(rs)[r.timestamp := r.mw]
    ensures Stamps(rs + [r]) == Stamps(rs) + {r.timestamp}
  {
    var m := i - start;
    var q := parsed[..m + 1];
    assert parsed[..i + 1 - start] == q;
    assert q[..|q| - 1] == parsed[..m] && q[|q| - 1] == parsed[m];
    var rr := rs + [r];
    assert rr[..|rr| - 1] == rs && rr[|rr| - 1] == r;
    assert forall x :: x in rr <==> x in rs || x == r;
  }

  /** Field i of the split pieces is parsed at position i - start of the trimmed list. */
  lemma TrimmedFields(pairs: seq<string>, start: nat) returns (parsed: seq<Result<Option<Reading>>>)
    requires |pairs| >= 1 && start == (if pairs[0] == "" then 1 else 0)
    ensures parsed == ParsedFields(Trimmed(pairs))
    ensures start <= |pairs| && |parsed| == |pairs| - start
    ensures forall i :: start <= i < |pairs| ==> parsed[i - start] == ParseField(pairs[i])
    ensures parsed[..|parsed|] == parsed
  {
    parsed := ParsedFields(Trimmed(pairs));
  }

  /**
   * The inner loop over one entry's fields: each reading is stored into the
   * facility's dict and its timestamp added to the set of all timestamps.
   */
  method DecodeEntry(item: FacilityForecast, stampsBefore: set<int>) returns (r: Result<(set<int>, map<int, real>)>)
    ensures EntryReadings(item).Err? ==> r == Err(EntryReadings(item).error)
    ensures EntryReadings(item).Ok? ==>
      r == Ok((stampsBefore + Stamps(EntryReadings(item).value), Store(EntryReadings(item).value)))
  {
    var pairs := Split(item.forecastData, ':');
    var startIdx := if pairs[0] == "" then 1 else 0;
    r := StoreFields(pairs, startIdx, stampsBefore);
  }

  /** The loop over the fields pairs[start..], parsing each and storing its reading. */
  method StoreFields(pairs: seq<string>, start: nat, stampsBefore: set<int>) returns (r: Result<(set<int>, map<int, real>)>)
    requires |pairs| >= 1 && start == (if pairs[0] == "" then 1 else 0)
    ensures Collect(ParsedFields(Trimmed(pairs))).Err? ==> r == Err(Collect(ParsedFields(Trimmed(pairs))).error)
    ensures Collect(ParsedFields(Trimmed(pairs))).Ok? ==>
      var rs := Collect(ParsedFields(Trimmed(pairs))).value;
      r == Ok((stampsBefore + Stamps(rs), Store(rs)))
  {
    var allTimestamps := stampsBefore;
    var readings: map<int, real> := map[];
    ghost var parsed := TrimmedFields(pairs, start);
    ghost var collected: seq<Reading> := [];
    for i := start to |pairs|
      invariant Collect(parsed[..i - start]) == Ok(collected)
      invariant readings == Store(collected)
      invariant allTimestamps == stampsBefore + Stamps(collected)
    {
      var field := ParseField(pairs[i]);
      match field {
        case Err(e) =>
          CollectStepErr(parsed, i - start);
          return Err(e);
        case Ok(None) =>
          CollectStepSkip(parsed, start, i, collected);
        case Ok(Some(reading)) =>
          CollectStepRead(parsed, start, i, collected, reading);
          allTimestamps := allTimestamps + {reading.timestamp};
          readings := readings[reading.timestamp := reading.mw];
          collected := collected + [reading];
      }
    }
    r := Ok((allTimestamps, readings));
  }

  /** One more entry: its readings replace the facility's dict and add their timestamps, or its failure is final. */
  lemma AssembleStepErr(entries: seq<Entry>, n: nat)
    requires n < |entries| && Assemble(entries[..n]).Ok? && entries[n].1.Err?
    ensures Assemble(entries) == Err(entries[n].1.error)
  {
    assert entries[..n + 1][..n] == entries[..n];
    AssembleErrorPersists(entries, n + 1);
  }

  lemma AssembleStepOk(entries: seq<Entry>, n: nat, d: Decoded, rs: seq<Reading>)
    requires n < |entries| && Assemble(entries[..n]) == Ok(d) && entries[n].1 == Ok(rs)
    ensures Assemble(entries[..n + 1]) == Ok(Decoded(d.timestamps + Stamps(rs), d.facilities[entries[n].0 := Store(rs)]))
  {
    assert entries[..n + 1][..n] == entries[..n];
  }

  /** The entry of item n of the response. */
  lemma EntryOf(items: seq<FacilityForecast>, n: nat)
    requires n < |items|
    ensures Entries(items)[n] == (items[n].facilityId, EntryReadings(items[n]))
  {
  }

  /**
   * The download loop: for each entry, reset the facility's dict, then fill
   * it from the entry's fields.
   */
  method DecodeResponse(items: seq<FacilityForecast>) returns (r: Result<Decoded>)
    ensures r == DecodeAll(items)
  {
    ghost var entries := Entries(items);
    var allTimestamps: set<int> := {};
    var facilityData: map<string, map<int, real>> := map[];
    for n := 0 to |items|
      invariant Assemble(entries[..n]) == Ok(Decoded(allTimestamps, facilityData))
    {
      var item := items[n];
      EntryOf(items, n);
      ghost var before := Decoded(allTimestamps, facilityData);
      facilityData := facilityData[item.facilityId := map[]];
      var entry := DecodeEntry(item, allTimestamps);
      if entry.Err? {
        AssembleStepErr(entries, n);
        return Err(entry.error);
      }
      AssembleStepOk(entries, n, before, EntryReadings(item).value);
      allTimestamps := entry.value.0;
      facilityData := facilityData[item.facilityId := entry.value.1];
      assert facilityData == before.facilities[item.facilityId := entry.value.1];
    }
    assert entries[..|items|] == entries;
    r := Ok(Decoded(allTimestamps, facilityData));
  }

  // ---------------------------------------------------------------------
  // What the decoded response holds

  /** A later reading for the same timestamp overwrites an earlier one; every reading's timestamp is a key. */
  lemma {:induction false} StoreLastWins(rs: seq<Reading>)
    ensures Store(rs).Keys == Stamps(rs)
    ensures forall j :: 0 <= j < |rs| && (forall k :: j < k < |rs| ==> rs[k].timestamp != rs[j].timestamp) ==>
      Store(rs)[rs[j].timestamp] == rs[j].mw
  {
    if rs != [] {
      var p := rs[..|rs| - 1];
      StoreLastWins(p);
      assert rs == p + [rs[|rs| - 1]];
      assert Stamps(rs) == Stamps(p) + {rs[|rs| - 1].timestamp};
      forall j | 0 <= j < |rs| - 1 && (forall k :: j < k < |rs| ==> rs[k].timestamp != rs[j].timestamp)
        ensures Store(rs)[rs[j].timestamp] == rs[j].mw
      {
        assert p[j] == rs[j];
        assert forall k :: j < k < |p| ==> p[k] == rs[k];
      }
    }
  }

  predicate AllParsed(entries: seq<Entry>) {
    forall k :: 0 <= k < |entries| ==> entries[k].1.Ok?
  }

  /** The last entry of parsed entries that assemble, and what it contributes. */
  lemma AssembleLast(entries: seq<Entry>)
    requires entries != [] && Assemble(entries).Ok?
    ensures Assemble(entries[..|entries| - 1]).Ok? && entries[|entries| - 1].1.Ok?
    ensures
      var d := Assemble(entries[..|entries| - 1]).value;
      var (id, rs) := (entries[|entries| - 1].0, entries[|entries| - 1].1.value);
      Assemble(entries).value == Decoded(d.timestamps + Stamps(rs), d.facilities[id := Store(rs)])
  {
  }

  lemma {:induction false} AssembledAllParsed(entries: seq<Entry>)
    requires Assemble(entries).Ok?
    ensures AllParsed(entries)
  {
    if entries != [] {
      AssembleLast(entries);
      var p := entries[..|entries| - 1];
      AssembledAllParsed(p);
      forall k | 0 <= k < |entries|
        ensures entries[k].1.Ok?
      {
        if k < |p| {
          assert p[k] == entries[k];
        }
      }
    }
  }

  /**
   * The timestamp set is the union of the timestamps of every entry, mapped
   * or not, and even of entries later replaced by a repeated facility id.
   */
  lemma {:induction false} AssembledTimestamps(entries: seq<Entry>)
    requires Assemble(entries).Ok?
    ensures AllParsed(entries)
    ensures forall t :: t in Assemble(entries).value.timestamps <==>
      exists k :: 0 <= k < |entries| && t in Stamps(entries[k].1.value)
  {
    AssembledAllParsed(entries);
    if entries != [] {
      AssembleLast(entries);
      var p := entries[..|entries| - 1];
      var last := |entries| - 1;
      AssembledTimestamps(p);
      var d := Assemble(entries).value;
      var dp := Assemble(p).value;
      forall t | t in d.timestamps
        ensures exists k :: 0 <= k < |entries| && t in Stamps(entries[k].1.value)
      {
        if t in dp.timestamps {
          var k :| 0 <= k < |p| && t in Stamps(p[k].1.value);
          assert p[k] == entries[k];
        } else {
          assert t in Stamps(entries[last].1.value);
        }
      }
      forall t, k | 0 <= k < |entries| && t in Stamps(entries[k].1.value)
        ensures t in d.timestamps
      {
        if k < last {
          assert p[k] == entries[k];
          assert t in dp.timestamps;
        } else {
          assert k == last;
        }
      }
    }
  }

  /**
   * The facilities are the ids of the entries, and each holds exactly the
   * readings of its LAST entry: a repeated id discards what came before.
   */
  lemma AssembledFacilities(entries: seq<Entry>)
    requires Assemble(entries).Ok?
    ensures AllParsed(entries)
    ensures forall id :: id in Assemble(entries).value.facilities <==> exists k :: 0 <= k < |entries| && entries[k].0 == id
    ensures forall k :: 0 <= k < |entries| && (forall j :: k < j < |entries| ==> entries[j].0 != entries[k].0) ==>
      Assemble(entries).value.facilities[entries[k].0] == Store(entries[k].1.value)
  {
    AssembledAllParsed(entries);
    AssembledFacilityIds(entries);
    AssembledLastWins(entries);
  }

  lemma {:induction false} AssembledFacilityIds(entries: seq<Entry>)
    requires Assemble(entries).Ok?
    ensures forall id :: id in Assemble(entries).value.facilities <==> exists k :: 0 <= k < |entries| && entries[k].0 == id
  {
    if entries != [] {
      AssembleLast(entries);
      var p := entries[..|entries| - 1];
      var last := |entries| - 1;
      AssembledFacilityIds(p);
      var d := Assemble(entries).value;
      var dp := Assemble(p).value;
      var id0 := entries[last].0;
      forall id | id in d.facilities
        ensures exists k :: 0 <= k < |entries| && entries[k].0 == id
      {
        if id != id0 {
          var k :| 0 <= k < |p| && p[k].0 == id;
          assert entries[k] == p[k];
        }
      }
      forall id, k | 0 <= k < |entries| && entries[k].0 == id
        ensures id in d.facilities
      {
        if k < last {
          assert p[k] == entries[k];
          assert id in dp.facilities;
        } else {
          assert k == last;
        }
      }
    }
  }

  lemma {:induction false} AssembledLastWins(entries: seq<Entry>)
    requires Assemble(entries).Ok?
    ensures AllParsed(entries)
    ensures forall k :: 0 <= k < |entries| && (forall j :: k < j < |entries| ==> entries[j].0 != entries[k].0) ==>
      entries[k].0 in Assemble(entries).value.facilities &&
      Assemble(entries).value.facilities[entries[k].0] == Store(entries[k].1.value)
  {
    AssembledAllParsed(entries);
    if entries != [] {
      AssembleLast(entries);
      var p := entries[..|entries| - 1];
      var last := |entries| - 1;
      AssembledLastWins(p);
      var d := Assemble(entries).value;
      var dp := Assemble(p).value;
      var id0 := entries[last].0;
      forall k | 0 <= k < |entries| && (forall j :: k < j < |entries| ==> entries[j].0 != entries[k].0)
        ensures entries[k].0 in d.facilities && d.facilities[entries[k].0] == Store(entries[k].1.value)
      {
        if k < last {
          assert p[k] == entries[k];
          assert forall j :: k < j < |p| ==> p[j] == entries[j];
          assert entries[k].0 != id0;
        } else {
          assert k == last;
        }
      }
    }
  }

  // ---------------------------------------------------------------------
  // The forecast string format, written out: decoding what it describes

  /** "epoch~kW" as the vendor prints a whole-number reading. */
  function EncodeField(ts: int, kw: int): string
  {
    ShowInt(ts) + "~" + ShowInt(kw)
  }

  function EncodeFields(ps: seq<(int, int)>): seq<string>
  {
    seq(|ps|, k requires 0 <= k < |ps| => EncodeField(ps[k].0, ps[k].1))
  }

  /** A forecast string with a leading ':' and one field per reading. */
  function EncodeData(ps: seq<(int, int)>): string
  {
    Join([""] + EncodeFields(ps), ':')
  }

  function AsReadings(ps: seq<(int, int)>): seq<Reading>
  {
    seq(|ps|, k requires 0 <= k < |ps| => Reading(ps[k].0, ps[k].1 as real / 1000.0))
  }

  lemma ShowIntChars(n: int)
    ensures forall i :: 0 <= i < |ShowInt(n)| ==> IsDigit(ShowInt(n)[i]) || ShowInt(n)[i] == '-'
  {
    if n < 0 {
      assert forall i :: 1 <= i < |ShowInt(n)| ==> ShowInt(n)[i] == ShowNat(-n)[i - 1];
    }
  }

  /** A printed field holds no ':' and splits on its one '~' into the two numbers. */
  lemma EncodedFieldParts(ts: int, kw: int)
    ensures ':' !in EncodeField(ts, kw)
    ensures Split(EncodeField(ts, kw), '~') == [ShowInt(ts), ShowInt(kw)]
  {
    ShowIntChars(ts);
    ShowIntChars(kw);
    var f := EncodeField(ts, kw);
    assert f == ShowInt(ts) + ['~'] + ShowInt(kw);
    forall i | 0 <= i < |f|
      ensures f[i] != ':'
    {
      if i < |ShowInt(ts)| {
        assert f[i] == ShowInt(ts)[i];
      } else if i > |ShowInt(ts)| {
        assert f[i] == ShowInt(kw)[i - |ShowInt(ts)| - 1];
      }
    }
    SplitFieldThenRest(ShowInt(ts), ShowInt(kw), '~');
    SplitFieldThenRest(ShowInt(kw), "", '~');
  }

  /** A printed field parses back to its reading, in MW. */
  lemma ParseEncodedField(ts: int, kw: int)
    ensures ParseField(EncodeField(ts, kw)) == Ok(Some(Reading(ts, kw as real / 1000.0)))
  {
    EncodedFieldParts(ts, kw);
    ParseIntShowInt(ts);
    ParseDecimalShowInt(kw);
  }

  /** Fields that each parse to a reading give exactly those readings. */
  lemma {:induction false} CollectAllReadings(parsed: seq<Result<Option<Reading>>>, rs: seq<Reading>)
    requires |parsed| == |rs|
    requires forall k :: 0 <= k < |parsed| ==> parsed[k] == Ok(Some(rs[k]))
    ensures Collect(parsed) == Ok(rs)
  {
    if parsed != [] {
      var n := |parsed|;
      CollectAllReadings(parsed[..n - 1], rs[..n - 1]);
      assert rs == rs[..n - 1] + [rs[n - 1]];
    }
  }

  /** The fields of an encoded string are the encoded pairs, the leading ':' dropped. */
  lemma FieldsOfEncodedData(ps: seq<(int, int)>)
    ensures Fields(EncodeData(ps)) == EncodeFields(ps)
  {
    var parts := [""] + EncodeFields(ps);
    forall i | 1 <= i < |parts|
      ensures ':' !in parts[i]
    {
      EncodedFieldParts(ps[i - 1].0, ps[i - 1].1);
    }
    SplitJoin(parts, ':');
    assert parts[1..] == EncodeFields(ps);
  }

  /** A string whose fields each parse to a reading decodes to exactly those readings. */
  lemma ReadingsOfFields(data: string, rs: seq<Reading>)
    requires |Fields(data)| == |rs|
    requires forall k :: 0 <= k < |rs| ==> ParseField(Fields(data)[k]) == Ok(Some(rs[k]))
    ensures DataReadings(data) == Ok(rs)
  {
    CollectAllReadings(ParsedFields(Fields(data)), rs);
  }

  /** Decoding a forecast string recovers exactly the readings it was written from, in order. */
  lemma DecodeEncodedData(ps: seq<(int, int)>)
    ensures DataReadings(EncodeData(ps)) == Ok(AsReadings(ps))
  {
    FieldsOfEncodedData(ps);
    ParseEncodedFields(ps);
    ReadingsOfFields(EncodeData(ps), AsReadings(ps));
  }

  /** Each written field parses back to its reading. */
  lemma ParseEncodedFields(ps: seq<(int, int)>)
    ensures |EncodeFields(ps)| == |AsReadings(ps)|
    ensures forall k :: 0 <= k < |ps| ==> ParseField(EncodeFields(ps)[k]) == Ok(Some(AsReadings(ps)[k]))
  {
    forall k | 0 <= k < |ps|
      ensures ParseField(EncodeFields(ps)[k]) == Ok(Some(AsReadings(ps)[k]))
    {
      ParseEncodedField(ps[k].0, ps[k].1);
    }
  }

  /** A field without a '~' is skipped rather than rejected. */
  lemma FieldWithoutSeparatorSkipped(field: string)
    requires '~' !in field
    ensures ParseField(field) == Ok(None)
  {
    SplitFieldThenRest(field, "", '~');
  }

  // ---------------------------------------------------------------------
  // The raw frame: sorted timestamps and one column per mapped facility

  /** The reading at a timestamp, or 0 when the facility has none there (dict.get(ts, 0)). */
  function ReadingAt(data: map<int, real>, t: int): real
  {
    if t in data then data[t] else 0.0
  }

  /** A facility's readings along the frame's times. */
  function Cells(data: map<int, real>, times: seq<int>): (c: seq<real>)
    ensures |c| == |times|
  {
    seq(|times|, k requires 0 <= k < |times| => ReadingAt(data, times[k]))
  }

  /** The column a mapped facility contributes: its readings along the times, or all-missing when it is absent. */
  function FacilityColumn(d: Decoded, id: string, times: seq<int>): Column
  {
    if id in d.facilities then Values(Cells(d.facilities[id], times)) else Blank
  }

  function InsertSorted(s: seq<int>, x: int): (r: seq<int>)
    requires StrictlyIncreasing(s) && x !in s
    ensures StrictlyIncreasing(r)
    ensures forall y :: y in r <==> y in s || y == x
  {
    if s == [] || x < s[0] then [x] + s
    else
      var rest := InsertSorted(s[1..], x);
      assert forall j :: 0 <= j < |rest| ==> s[0] < rest[j] by {
        forall j | 0 <= j < |rest|
          ensures s[0] < rest[j]
        {
          assert rest[j] in rest;
          if rest[j] != x {
            var k :| 0 <= k < |s[1..]| && s[1..][k] == rest[j];
            assert s[k + 1] == rest[j];
          }
        }
      }
      [s[0]] + rest
  }

  lemma NonEmptyHasMember(s: set<int>)
    requires s != {}
    ensures exists x :: x in s
  {
    if forall x :: x !in s {
      assert false;
    }
  }

  lemma {:induction false} MinimumExists(s: set<int>)
    requires s != {}
    ensures exists m :: m in s && forall y :: y in s ==> m <= y
    decreases |s|
  {
    NonEmptyHasMember(s);
    var x :| x in s;
    if s - {x} != {} {
      MinimumExists(s - {x});
      var m :| m in s - {x} && forall y :: y in s - {x} ==> m <= y;
      var least := if x < m then x else m;
      forall y | y in s
        ensures least <= y
      {
        if y != x {
          assert y in s - {x};
        }
      }
      assert least in s;
    } else {
      forall y | y in s
        ensures x <= y
      {
        assert y !in s - {x};
      }
    }
  }

  /** The members of a finite set of timestamps in ascending order. */
  ghost function SortedSet(s: set<int>): (r: seq<int>)
    ensures StrictlyIncreasing(r)
    ensures forall t :: t in r <==> t in s
    decreases |s|
  {
    if s == {} then []
    else
      MinimumExists(s);
      var m :| m in s && forall y :: y in s ==> m <= y;
      var rest := SortedSet(s - {m});
      assert forall j :: 0 <= j < |rest| ==> m < rest[j] by {
        forall j | 0 <= j < |rest|
          ensures m < rest[j]
        {
          assert rest[j] in rest;
        }
      }
      [m] + rest
  }

  /** Past the first element of an ascending sequence come exactly its other members. */
  lemma AscendingTail(a: seq<int>)
    requires StrictlyIncreasing(a) && a != []
    ensures StrictlyIncreasing(a[1..])
    ensures forall t :: t in a[1..] <==> t in a && t != a[0]
  {
    forall t | t in a && t != a[0]
      ensures t in a[1..]
    {
      var k :| 0 <= k < |a| && a[k] == t;
      assert a[1..][k - 1] == t;
    }
  }

  /** A set has one ascending listing: two strictly increasing sequences with the same members are equal. */
  lemma {:induction false} AscendingListingUnique(a: seq<int>, b: seq<int>)
    requires StrictlyIncreasing(a) && StrictlyIncreasing(b)
    requires forall t :: t in a <==> t in b
    ensures a == b
    decreases |a|
  {
    if a != [] {
      assert a[0] in a;
    }
    if b != [] {
      assert b[0] in b;
    }
    if a != [] && b != [] {
      var i :| 0 <= i < |b| && b[i] == a[0];
      var j :| 0 <= j < |a| && a[j] == b[0];
      assert forall k :: 0 <= k < |a| ==> a[0] <= a[k];
      assert forall k :: 0 <= k < |b| ==> b[0] <= b[k];
      assert a[0] == b[0];
      AscendingTail(a);
      AscendingTail(b);
      AscendingListingUnique(a[1..], b[1..]);
      assert a == [a[0]] + a[1..] && b == [b[0]] + b[1..];
    }
  }

  /** sorted(all_timestamps) */
  method SortTimestamps(stamps: set<int>) returns (ts: seq<int>)
    ensures ts == SortedSet(stamps)
  {
    ts := [];
    var rest := stamps;
    while rest != {}
      invariant rest <= stamps
      invariant StrictlyIncreasing(ts)
      invariant forall t :: t in ts <==> t in stamps && t !in rest
      decreases |rest|
    {
      NonEmptyHasMember(rest);
      var x :| x in rest;
      assert x !in ts;
      ts := InsertSorted(ts, x);
      rest := rest - {x};
    }
    AscendingListingUnique(ts, SortedSet(stamps));
  }

  /**
   * The raw forecast frame: indexed by the sorted timestamps, with one column
   * per mapped facility, all-missing when the response has no such facility.
   */
  ghost function RawFrame(d: Decoded): (f: Frame)
  {
    var times := SortedSet(d.timestamps);
    FacilityMappingIsOneToOne();
    Frame(times, map i | 0 <= i < |FacilityMapping| :: FacilityMapping[i].1 := FacilityColumn(d, FacilityMapping[i].0, times))
  }

  /**
   * The frame indexed by the sorted timestamps, with the ten vendor columns
   * created empty and then filled for each mapped facility the response has.
   */
  method BuildRawFrame(d: Decoded) returns (f: Frame)
    ensures f == RawFrame(d)
  {
    FacilityMappingIsOneToOne();
    var times := SortTimestamps(d.timestamps);
    var columns: map<Source, Column> := map s | FromVendor(s) :: Blank;
    for i := 0 to |FacilityMapping|
      invariant forall s :: s in columns <==> FromVendor(s)
      invariant forall j :: 0 <= j < |FacilityMapping| ==> FacilityMapping[j].1 in columns
      invariant forall j :: 0 <= j < i ==> columns[FacilityMapping[j].1] == FacilityColumn(d, FacilityMapping[j].0, times)
      invariant forall j :: i <= j < |FacilityMapping| ==> columns[FacilityMapping[j].1] == Blank
    {
      var id := FacilityMapping[i].0;
      var source := FacilityMapping[i].1;
      ghost var before := columns;
      if id in d.facilities {
        columns := columns[source := Values(Cells(d.facilities[id], times))];
      }
      assert columns[source] == FacilityColumn(d, id, times);
      assert forall j :: 0 <= j < |FacilityMapping| && j != i ==> columns[FacilityMapping[j].1] == before[FacilityMapping[j].1];
    }
    f := Frame(times, columns);
    RawFrameColumns(d, f);
  }

  /** A frame whose columns are exactly the mapped facilities' columns is the raw frame. */
  lemma RawFrameColumns(d: Decoded, f: Frame)
    requires f.times == SortedSet(d.timestamps)
    requires forall s :: s in f.columns <==> FromVendor(s)
    requires forall i :: 0 <= i < |FacilityMapping| ==>
      FacilityMapping[i].1 in f.columns && f.columns[FacilityMapping[i].1] == FacilityColumn(d, FacilityMapping[i].0, f.times)
    ensures f == RawFrame(d)
  {
    FacilityMappingIsOneToOne();
    var g := RawFrame(d);
    forall s
      ensures s in f.columns <==> s in g.columns
    {
      if s in g.columns {
        var i :| 0 <= i < |FacilityMapping| && FacilityMapping[i].1 == s;
      }
      if s in f.columns {
        var i :| 0 <= i < |FacilityMapping| && FacilityMapping[i].1 == s;
        assert s in g.columns;
      }
    }
    forall s | s in f.columns
      ensures f.columns[s] == g.columns[s]
    {
      var i :| 0 <= i < |FacilityMapping| && FacilityMapping[i].1 == s;
    }
    assert f.columns == g.columns;
  }

  /** The raw frame: ascending times, a column for each vendor source, each as long as the times. */
  lemma RawFrameShape(d: Decoded)
    ensures StrictlyIncreasing(RawFrame(d).times)
    ensures forall t :: t in RawFrame(d).times <==> t in d.timestamps
    ensures WellFormed(RawFrame(d))
    ensures forall s :: s in RawFrame(d).columns <==> FromVendor(s)
  {
    FacilityMappingIsOneToOne();
    var f := RawFrame(d);
    forall s
      ensures s in f.columns <==> FromVendor(s)
    {
      if FromVendor(s) {
        var i :| 0 <= i < |FacilityMapping| && FacilityMapping[i].1 == s;
        assert s in f.columns;
      }
    }
  }

  /** Every timestamp a facility holds a reading for is among the decoded timestamps. */
  lemma FacilityStampsRecorded(items: seq<FacilityForecast>)
    requires DecodeAll(items).Ok?
    ensures forall id :: id in DecodeAll(items).value.facilities ==>
      DecodeAll(items).value.facilities[id].Keys <= DecodeAll(items).value.timestamps
  {
    var entries := Entries(items);
    var d := Assemble(entries).value;
    AssembledFacilities(entries);
    AssembledTimestamps(entries);
    forall id | id in d.facilities
      ensures d.facilities[id].Keys <= d.timestamps
    {
      var k := LastEntry(entries, id);
      StoreLastWins(entries[k].1.value);
    }
  }

  /**
   * Every reading of a mapped facility that the response holds lands in its
   * column at the row of its timestamp, and a row where the facility has no
   * reading holds 0.
   */
  lemma MappedReadingsInFrame(items: seq<FacilityForecast>, f: Frame, i: nat)
    requires DecodeAll(items).Ok?
    requires forall t :: t in f.times <==> t in DecodeAll(items).value.timestamps
    requires i < |FacilityMapping|
    requires FacilityMapping[i].0 in DecodeAll(items).value.facilities
    requires FacilityMapping[i].1 in f.columns
    requires f.columns[FacilityMapping[i].1] == FacilityColumn(DecodeAll(items).value, FacilityMapping[i].0, f.times)
    ensures forall t :: t in DecodeAll(items).value.facilities[FacilityMapping[i].0] ==>
      exists k :: 0 <= k < |f.times| && f.times[k] == t &&
        f.columns[FacilityMapping[i].1].cells[k] == DecodeAll(items).value.facilities[FacilityMapping[i].0][t]
    ensures forall k :: 0 <= k < |f.times| && f.times[k] !in DecodeAll(items).value.facilities[FacilityMapping[i].0] ==>
      f.columns[FacilityMapping[i].1].cells[k] == 0.0
  {
    var d := DecodeAll(items).value;
    var data := d.facilities[FacilityMapping[i].0];
    var cells := f.columns[FacilityMapping[i].1].cells;
    assert cells == Cells(data, f.times);
    FacilityStampsRecorded(items);
    forall t | t in data
      ensures exists k :: 0 <= k < |f.times| && f.times[k] == t && cells[k] == data[t]
    {
      assert t in d.timestamps;
      var k :| 0 <= k < |f.times| && f.times[k] == t;
      assert cells[k] == ReadingAt(data, t);
    }
  }

  /** The last entry for an id that occurs among the entries. */
  lemma LastEntry(entries: seq<Entry>, id: string) returns (k: nat)
    requires exists k :: 0 <= k < |entries| && entries[k].0 == id
    ensures k < |entries| && entries[k].0 == id
    ensures forall j :: k < j < |entries| ==> entries[j].0 != id
  {
    k :| 0 <= k < |entries| && entries[k].0 == id;
    while exists j :: k < j < |entries| && entries[j].0 == id
      invariant k < |entries| && entries[k].0 == id
      decreases |entries| - k
    {
      var j :| k < j < |entries| && entries[j].0 == id;
      k := j;
    }
  }
}

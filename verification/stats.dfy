/**
 * `get_stats`: reading the fuzzer's `fuzzer_stats` file, one
 * `key : value` line at a time, into a dictionary, and reporting the
 * `execs_per_sec` entry.
 */
module Stats {
  import opened Base
  import opened Text

  const Separator: string := ": "
  const ExecsPerSecKey: string := "execs_per_sec"

  datatype StatsError =
    | MalformedLine(index: nat)  // ValueError: the line does not split into exactly two parts
    | MissingExecsPerSec         // KeyError: no `execs_per_sec` entry

  /**
   * What `get_stats` reports: the literal '{}' when there is no stats file,
   * otherwise the text of the `execs_per_sec` entry (which the source then
   * converts to a float and serialises).
   */
  datatype Report = NoStatsFile | ExecsPerSec(raw: string)

  /**
   * `key, value = line.split(': ')`: the two pieces of a line, or None when
   * the split does not give exactly two (the unpacking raises).
   */
  function SplitLine(line: string): Option<(string, string)>
  {
    var parts := Split(line, Separator);
    if |parts| == 2 then Some((parts[0], parts[1])) else None
  }

  /** A split yields a single piece exactly when the separator does not occur. */
  lemma {:induction false} SplitSingle(s: string, sep: string)
    requires sep != []
    ensures |Split(s, sep)| == 1 <==> !Contains(s, sep)
  {
    match Find(s, sep)
    case None =>
      assert Split(s, sep) == [s];
    case Some(i) =>
      assert OccursAt(s, sep, i);
      assert |Split(s, sep)| >= 2;
  }

  /**
   * A line splits exactly when it holds the separator once; the key is
   * then the text before it and the value the text after.
   */
  lemma {:induction false} SplitLineOneSeparator(line: string)
    ensures SplitLine(line).Some? <==>
      Find(line, Separator).Some? && !Contains(line[Find(line, Separator).value + 2..], Separator)
    ensures SplitLine(line).Some? ==>
      var i := Find(line, Separator).value;
      SplitLine(line).value == (line[..i], line[i + 2..])
  {
    match Find(line, Separator)
    case None =>
    case Some(i) =>
      var rest := line[i + 2..];
      SplitSingle(rest, Separator);
      assert Split(line, Separator) == [line[..i]] + Split(rest, Separator);
      match Find(rest, Separator)
      case None =>
      case Some(_) =>
  }

  /** A key and a value without the separator, joined by it, split back into the two. */
  lemma {:induction false} SplitLineJoined(key: string, value: string)
    requires !Contains(key, Separator) && !Contains(value, Separator)
    ensures SplitLine(key + Separator + value) == Some((key, value))
  {
    var line := key + Separator + value;
    assert OccursAt(line, Separator, |key|) by {
      assert line[|key|..|key| + 2] == Separator;
    }
    forall j: nat | j < |key|
      ensures !OccursAt(line, Separator, j)
    {
      if j + 2 <= |key| {
        assert line[j..j + 2] == key[j..j + 2];
        assert !OccursAt(key, Separator, j);
      } else {
        assert line[j + 1] == ':';
      }
    }
    assert Find(line, Separator) == Some(|key|);
    assert line[..|key|] == key;
    assert line[|key| + 2..] == value;
    SplitLineOneSeparator(line);
  }

  /** Each line of the stats file, split. */
  function ParseLines(lines: seq<string>): (entries: seq<Option<(string, string)>>)
    ensures |entries| == |lines|
    ensures forall j :: 0 <= j < |lines| ==> entries[j] == SplitLine(lines[j])
  {
    seq(|lines|, j requires 0 <= j < |lines| => SplitLine(lines[j]))
  }

  /**
   * The loop of `get_stats` from line `i` on, over the split lines, with
   * `stats` holding what the earlier lines stored: each line's stripped key
   * is set to its stripped value, a later line overwriting an earlier one,
   * and the first line that does not split in two raises.
   */
  function Collect(entries: seq<Option<(string, string)>>, i: nat, stats: map<string, string>): Result<map<string, string>, StatsError>
    requires i <= |entries|
    decreases |entries| - i
  {
    if i == |entries| then Ok(stats)
    else
      match entries[i]
      case None => Err(MalformedLine(i))
      case Some((key, value)) => Collect(entries, i + 1, stats[Strip(key) := Strip(value)])
  }

  function ParseStats(lines: seq<string>): Result<map<string, string>, StatsError>
  {
    Collect(ParseLines(lines), 0, map[])
  }

  /** The whole of `get_stats`, given whether the stats file exists and its lines. */
  function StatsReport(statsFileExists: bool, lines: seq<string>): Result<Report, StatsError>
  {
    if !statsFileExists then Ok(NoStatsFile)
    else
      match ParseStats(lines)
      case Err(e) => Err(e)
      case Ok(stats) =>
        if ExecsPerSecKey in stats then Ok(ExecsPerSec(stats[ExecsPerSecKey]))
        else Err(MissingExecsPerSec)
  }

  /** `get_stats` as the source runs it: a loop filling the dictionary. */
  method GetStats(statsFileExists: bool, lines: seq<string>) returns (r: Result<Report, StatsError>)
    ensures r == StatsReport(statsFileExists, lines)
  {
    if !statsFileExists {
      return Ok(NoStatsFile);
    }
    var stats: map<string, string> := map[];
    ghost var entries := ParseLines(lines);
    for i := 0 to |lines|
      invariant Collect(entries, i, stats) == ParseStats(lines)
    {
      var parts := SplitLine(lines[i]);
      assert parts == entries[i];
      match parts {
        case None =>
          return Err(MalformedLine(i));
        case Some((key, value)) =>
          stats := stats[Strip(key) := Strip(value)];
      }
    }
    if ExecsPerSecKey in stats {
      r := Ok(ExecsPerSec(stats[ExecsPerSecKey]));
    } else {
      r := Err(MissingExecsPerSec);
    }
  }

  /** The stripped value of the last entry whose stripped key is `key`, if any entry has it. */
  function LastValue(entries: seq<Option<(string, string)>>, key: string): Option<string>
  {
    if entries == [] then None
    else
      match LastValue(entries[1..], key)
      case Some(v) => Some(v)
      case None =>
        match entries[0]
        case Some((k, v)) => if Strip(k) == key then Some(Strip(v)) else None
        case None => None
  }

  function Get(m: map<string, string>, key: string): Option<string>
  {
    if key in m then Some(m[key]) else None
  }

  lemma {:induction false} CollectLastWins(entries: seq<Option<(string, string)>>, i: nat, stats: map<string, string>, m: map<string, string>)
    requires i <= |entries| && Collect(entries, i, stats) == Ok(m)
    ensures forall key ::
      Get(m, key) == if LastValue(entries[i..], key).Some? then LastValue(entries[i..], key) else Get(stats, key)
    decreases |entries| - i
  {
    if i < |entries| {
      var entry := entries[i].value;
      CollectLastWins(entries, i + 1, stats[Strip(entry.0) := Strip(entry.1)], m);
      assert entries[i..][1..] == entries[i + 1..];
    }
  }

  /**
   * A successful parse maps exactly the keys that occur to the value of the
   * last line with that key.
   */
  lemma {:induction false} ParseStatsLastWins(lines: seq<string>, m: map<string, string>)
    requires ParseStats(lines) == Ok(m)
    ensures forall key :: key in m <==> LastValue(ParseLines(lines), key).Some?
    ensures forall key :: key in m ==> m[key] == LastValue(ParseLines(lines), key).value
  {
    var entries := ParseLines(lines);
    CollectLastWins(entries, 0, map[], m);
    assert entries[0..] == entries;
    forall key
      ensures key in m <==> LastValue(entries, key).Some?
      ensures key in m ==> m[key] == LastValue(entries, key).value
    {
      assert Get(m, key) == LastValue(entries, key);
    }
  }

  lemma {:induction false} CollectOutcome(entries: seq<Option<(string, string)>>, i: nat, stats: map<string, string>)
    requires i <= |entries|
    ensures Collect(entries, i, stats).Ok? <==> forall j :: i <= j < |entries| ==> entries[j].Some?
    ensures forall e :: Collect(entries, i, stats) == Err(e) ==>
      e.MalformedLine? && i <= e.index < |entries| && entries[e.index].None?
      && forall j :: i <= j < e.index ==> entries[j].Some?
    decreases |entries| - i
  {
    if i < |entries| {
      match entries[i]
      case None =>
      case Some((key, value)) => CollectOutcome(entries, i + 1, stats[Strip(key) := Strip(value)]);
    }
  }

  /**
   * Parsing succeeds exactly when every line splits in two; otherwise it
   * fails at the first line that does not.
   */
  lemma {:induction false} ParseStatsOutcome(lines: seq<string>)
    ensures ParseStats(lines).Ok? <==> forall j :: 0 <= j < |lines| ==> SplitLine(lines[j]).Some?
    ensures ParseStats(lines).Err? ==>
      var e := ParseStats(lines).error;
      e.MalformedLine? && e.index < |lines| && SplitLine(lines[e.index]).None?
      && forall j :: 0 <= j < e.index ==> SplitLine(lines[j]).Some?
  {
    var entries := ParseLines(lines);
    CollectOutcome(entries, 0, map[]);
    assert ParseStats(lines).Ok? <==> forall j :: 0 <= j < |lines| ==> entries[j].Some?;
    if ParseStats(lines).Err? {
      var e := ParseStats(lines).error;
      assert e.MalformedLine? && e.index < |lines| && entries[e.index].None?;
      assert forall j :: 0 <= j < e.index ==> entries[j].Some?;
    }
  }

  /**
   * With no stats file the report is '{}'. Otherwise, when every line
   * unpacks, it is the value of the last `execs_per_sec` line, and raises
   * when there is none; when a line does not unpack, the first such line
   * raises.
   */
  lemma {:induction false} StatsReportSpec(statsFileExists: bool, lines: seq<string>)
    ensures !statsFileExists ==> StatsReport(statsFileExists, lines) == Ok(NoStatsFile)
    ensures statsFileExists && ParseStats(lines).Ok? ==>
      StatsReport(statsFileExists, lines) ==
        match LastValue(ParseLines(lines), ExecsPerSecKey)
        case Some(v) => Ok(ExecsPerSec(v))
        case None => Err(MissingExecsPerSec)
    ensures statsFileExists && ParseStats(lines).Err? ==>
      StatsReport(statsFileExists, lines) == Err(ParseStats(lines).error)
  {
    if statsFileExists && ParseStats(lines).Ok? {
      ParseStatsLastWins(lines, ParseStats(lines).value);
    }
  }
}

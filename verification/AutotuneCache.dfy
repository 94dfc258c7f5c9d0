/**
 The autotune cache: what `Save` prints and `ParseStream` reads, line by line and field by field.
 */
module AutotuneCache {
  import opened CacheText

  datatype ProfileType = InvalidType | OneNNIndex | SumThresh | FrequencyThresh | Knn | OneNNMultidim | OneNN
                       | ApproxAllNeighbors | MatrixSummary

  datatype Precision = InvalidPrecision | Single | Mixed | Double | Ultra

  type Int32 = n: int | IsInt32(n) witness 0

  datatype KernelConfig = KernelConfig(blocksz: Int32, blocksPerSm: Int32, diagsPerThread: Int32, unrolledRows: Int32,
                                       outerUnrolledRows: Int32, kernelTileIters: Int32)

  datatype Key = Key(deviceKey: string, profileType: ProfileType, precision: Precision)

  datatype Outcome = Loaded | Malformed(lineno: nat) | UnknownProfileType(lineno: nat) | UnknownPrecision(lineno: nat)
                   | MalformedInteger(lineno: nat)

  const HEADER := "SCAMP_AUTOTUNE_V1"
  const FIELD_SEP := '|'
  const NUM_RECORD_FIELDS := 9
  const FIELDS_COMMENT :=
    "# device_key|profile_type|" + "precision|blocksz|blocks_per_sm|"
    + "diags_per_thread|unrolled_rows|" + "outer_unrolled_rows|" + "kernel_tile_iters"
  const TILE_COMMENT := "# (tile_height = " + "kernel_tile_iters * " + "outer_unrolled_rows)"

  // ---------- Names ----------

  function ProfileTypeName(t: ProfileType): string {
    match t
    case InvalidType => "INVALID"
    case OneNNIndex => "1NN_INDEX"
    case SumThresh => "SUM_THRESH"
    case FrequencyThresh => "FREQUENCY_THRESH"
    case Knn => "KNN"
    case OneNNMultidim => "1NN_MULTIDIM"
    case OneNN => "1NN"
    case ApproxAllNeighbors => "APPROX_ALL_NEIGHBORS"
    case MatrixSummary => "MATRIX_SUMMARY"
  }

  function PrecisionTypeName(p: Precision): string {
    match p
    case InvalidPrecision => "INVALID"
    case Single => "SINGLE"
    case Mixed => "MIXED"
    case Double => "DOUBLE"
    case Ultra => "ULTRA"
  }

  /** The enumerators in the order of their values. */
  const PROFILE_TYPES := [InvalidType, OneNNIndex, SumThresh, FrequencyThresh, Knn, OneNNMultidim, OneNN,
    ApproxAllNeighbors, MatrixSummary]
  const PRECISIONS := [InvalidPrecision, Single, Mixed, Double, Ultra]

  ghost predicate ProfileTypeNamed(s: string, r: Option<ProfileType>) {
    match r
    case Some(t) => ProfileTypeName(t) == s
    case None => forall t :: ProfileTypeName(t) != s
  }

  ghost predicate PrecisionNamed(s: string, r: Option<Precision>) {
    match r
    case Some(p) => PrecisionTypeName(p) == s
    case None => forall p :: PrecisionTypeName(p) != s
  }

  /** No two enumerators share a name, so a name determines its enumerator. */
  lemma NamesAreDistinct(s: string, r: Option<ProfileType>, r': Option<ProfileType>, p: Option<Precision>,
                         p': Option<Precision>)
    ensures ProfileTypeNamed(s, r) && ProfileTypeNamed(s, r') ==> r == r'
    ensures PrecisionNamed(s, p) && PrecisionNamed(s, p') ==> p == p'
  {
    assert ProfileTypeName(OneNNIndex)[3] != ProfileTypeName(OneNNMultidim)[4];
    if r.Some? && r'.Some? && ProfileTypeNamed(s, r) && ProfileTypeNamed(s, r') {
      assert |ProfileTypeName(r.value)| == |ProfileTypeName(r'.value)|;
      assert ProfileTypeName(r.value)[0] == ProfileTypeName(r'.value)[0];
    }
    if p.Some? && p'.Some? && PrecisionNamed(s, p) && PrecisionNamed(s, p') {
      assert PrecisionTypeName(p.value)[0] == PrecisionTypeName(p'.value)[0];
      assert |PrecisionTypeName(p.value)| == |PrecisionTypeName(p'.value)|;
    }
  }

  /** The enumerator with a given name, if any. */
  function ProfileTypeOf(s: string): (r: Option<ProfileType>)
    ensures ProfileTypeNamed(s, r)
  {
    if s == "INVALID" then Some(InvalidType) else if s == "1NN_INDEX" then Some(OneNNIndex)
    else if s == "SUM_THRESH" then Some(SumThresh) else if s == "FREQUENCY_THRESH" then Some(FrequencyThresh)
    else if s == "KNN" then Some(Knn) else if s == "1NN_MULTIDIM" then Some(OneNNMultidim)
    else if s == "1NN" then Some(OneNN) else if s == "APPROX_ALL_NEIGHBORS" then Some(ApproxAllNeighbors)
    else if s == "MATRIX_SUMMARY" then Some(MatrixSummary) else None
  }

  function PrecisionOf(s: string): (r: Option<Precision>)
    ensures PrecisionNamed(s, r)
  {
    if s == "INVALID" then Some(InvalidPrecision) else if s == "SINGLE" then Some(Single)
    else if s == "MIXED" then Some(Mixed) else if s == "DOUBLE" then Some(Double)
    else if s == "ULTRA" then Some(Ultra) else None
  }

  /** The names that the cache file knows. */
  lemma KnownProfileTypes(s: string)
    ensures ProfileTypeOf(s) == Some(InvalidType) <==> s == "INVALID"
    ensures ProfileTypeOf(s) == Some(OneNN) <==> s == "1NN"
    ensures ProfileTypeOf(s) == Some(OneNNIndex) <==> s == "1NN_INDEX"
    ensures ProfileTypeOf(s) == Some(SumThresh) <==> s == "SUM_THRESH"
    ensures ProfileTypeOf(s) == Some(FrequencyThresh) <==> s == "FREQUENCY_THRESH"
    ensures ProfileTypeOf(s) == Some(Knn) <==> s == "KNN"
    ensures ProfileTypeOf(s) == Some(ApproxAllNeighbors) <==> s == "APPROX_ALL_NEIGHBORS"
    ensures ProfileTypeOf(s) == Some(MatrixSummary) <==> s == "MATRIX_SUMMARY"
    ensures ProfileTypeOf(s) == Some(OneNNMultidim) <==> s == "1NN_MULTIDIM"
  {
    hide ProfileTypeName;
  }

  lemma KnownPrecisions(s: string)
    ensures PrecisionOf(s) == Some(InvalidPrecision) <==> s == "INVALID"
    ensures PrecisionOf(s) == Some(Single) <==> s == "SINGLE"
    ensures PrecisionOf(s) == Some(Mixed) <==> s == "MIXED"
    ensures PrecisionOf(s) == Some(Double) <==> s == "DOUBLE"
    ensures PrecisionOf(s) == Some(Ultra) <==> s == "ULTRA"
  {
    hide PrecisionTypeName;
  }

  lemma EnumValue(t: ProfileType) returns (i: nat)
    ensures i < |PROFILE_TYPES| && PROFILE_TYPES[i] == t
  {
    i := match t
      case InvalidType => 0 case OneNNIndex => 1 case SumThresh => 2 case FrequencyThresh => 3 case Knn => 4
      case OneNNMultidim => 5 case OneNN => 6 case ApproxAllNeighbors => 7 case MatrixSummary => 8;
  }

  lemma PrecisionValue(p: Precision) returns (i: nat)
    ensures i < |PRECISIONS| && PRECISIONS[i] == p
  {
    i := match p case InvalidPrecision => 0 case Single => 1 case Mixed => 2 case Double => 3 case Ultra => 4;
  }

  /** Try the enumerators in turn until one prints as `s`. */
  method ParseProfileTypeName(s: string) returns (r: Option<ProfileType>)
    ensures r == ProfileTypeOf(s)
  {
    hide ProfileTypeOf, ProfileTypeName;
    for i := 0 to |PROFILE_TYPES|
      invariant forall k :: 0 <= k < i ==> ProfileTypeName(PROFILE_TYPES[k]) != s
    {
      if s == ProfileTypeName(PROFILE_TYPES[i]) {
        r := Some(PROFILE_TYPES[i]);
        NamesAreDistinct(s, r, ProfileTypeOf(s), None, None);
        return;
      }
    }
    r := None;
    forall t ensures ProfileTypeName(t) != s {
      var i := EnumValue(t);
    }
    NamesAreDistinct(s, r, ProfileTypeOf(s), None, None);
  }

  method ParsePrecisionTypeName(s: string) returns (r: Option<Precision>)
    ensures r == PrecisionOf(s)
  {
    hide PrecisionOf, PrecisionTypeName;
    for i := 0 to |PRECISIONS|
      invariant forall k :: 0 <= k < i ==> PrecisionTypeName(PRECISIONS[k]) != s
    {
      if s == PrecisionTypeName(PRECISIONS[i]) {
        r := Some(PRECISIONS[i]);
        NamesAreDistinct(s, None, None, r, PrecisionOf(s));
        return;
      }
    }
    r := None;
    forall p ensures PrecisionTypeName(p) != s {
      var i := PrecisionValue(p);
    }
    NamesAreDistinct(s, None, None, r, PrecisionOf(s));
  }

  // ---------- Reading ----------

  datatype Parsed = Record(key: Key, config: KernelConfig) | BadLine(outcome: Outcome)

  /** The six integers of a record. */
  function ParseConfig(f: seq<string>): Option<KernelConfig>
    requires |f| == NUM_RECORD_FIELDS
  {
    var a, b, c, d, e, g := Stoi(f[3]), Stoi(f[4]), Stoi(f[5]), Stoi(f[6]), Stoi(f[7]), Stoi(f[8]);
    if a.None? || b.None? || c.None? || d.None? || e.None? || g.None? then None
    else Some(KernelConfig(a.value, b.value, c.value, d.value, e.value, g.value))
  }

  /** What one line of records says. */
  function ParseRecord(line: string, lineno: nat): Parsed {
    var f := Pieces(line, FIELD_SEP);
    if |f| != NUM_RECORD_FIELDS then BadLine(Malformed(lineno))
    else if ProfileTypeOf(f[1]).None? then BadLine(UnknownProfileType(lineno))
    else if PrecisionOf(f[2]).None? then BadLine(UnknownPrecision(lineno))
    else if ParseConfig(f).None? then BadLine(MalformedInteger(lineno))
    else Record(Key(f[0], ProfileTypeOf(f[1]).value, PrecisionOf(f[2]).value), ParseConfig(f).value)
  }

  /** Which of the six numbers of a record cannot be read. */
  ghost predicate BadInteger(f: seq<string>)
    requires |f| == 9
  {
    Stoi(f[3]).None? || Stoi(f[4]).None? || Stoi(f[5]).None? || Stoi(f[6]).None? || Stoi(f[7]).None? || Stoi(f[8]).None?
  }

  /** A line is bad because it has not nine fields, or its second or third is no name, or a number is not one; the first
      of these that applies is the error, and no other line is bad. */
  lemma RecordErrors(line: string, lineno: nat)
    ensures
      var f, p := Pieces(line, '|'), ParseRecord(line, lineno);
      if |f| != 9 then p == BadLine(Malformed(lineno))
      else if forall t :: ProfileTypeName(t) != f[1] then p == BadLine(UnknownProfileType(lineno))
      else if forall t :: PrecisionTypeName(t) != f[2] then p == BadLine(UnknownPrecision(lineno))
      else if BadInteger(f) then p == BadLine(MalformedInteger(lineno))
      else
        && p.Record? && p.key.deviceKey == f[0]
        && ProfileTypeName(p.key.profileType) == f[1] && PrecisionTypeName(p.key.precision) == f[2]
        && Stoi(f[3]) == Some(p.config.blocksz) && Stoi(f[4]) == Some(p.config.blocksPerSm)
        && Stoi(f[5]) == Some(p.config.diagsPerThread) && Stoi(f[6]) == Some(p.config.unrolledRows)
        && Stoi(f[7]) == Some(p.config.outerUnrolledRows) && Stoi(f[8]) == Some(p.config.kernelTileIters)
  {
    hide Pieces, ProfileTypeName, PrecisionTypeName, Stoi, ProfileTypeOf, PrecisionOf;
    var f := Pieces(line, '|');
    if |f| == 9 {
      var t, p := ProfileTypeOf(f[1]), PrecisionOf(f[2]);
      assert ProfileTypeNamed(f[1], t) && PrecisionNamed(f[2], p);
    }
  }

  predicate Skipped(line: string) {
    line == [] || line[0] == '#'
  }

  /** The lines from number `lineno + 1` on, read into `entries`. Entries read before an error stay. */
  function ParseLines(lines: seq<string>, lineno: nat, headerSeen: bool, entries: map<Key, KernelConfig>)
      : (map<Key, KernelConfig>, Outcome)
    decreases |lines|
  {
    if lines == [] then (entries, Loaded)
    else if Skipped(lines[0]) then ParseLines(lines[1..], lineno + 1, headerSeen, entries)
    else if !headerSeen then
      if lines[0] != HEADER then (map[], Loaded) else ParseLines(lines[1..], lineno + 1, true, entries)
    else
      match ParseRecord(lines[0], lineno + 1)
      case BadLine(outcome) => (entries, outcome)
      case Record(key, config) => ParseLines(lines[1..], lineno + 1, headerSeen, entries[key := config])
  }

  /** Line `i` is the first of a text that is neither empty nor a comment. */
  ghost predicate FirstLine(lines: seq<string>, i: nat) {
    i < |lines| && lines[i] != "" && lines[i][0] != '#'
    && forall k: nat :: k < i ==> lines[k] == "" || lines[k][0] == '#'
  }

  /** A text without such a line changes nothing, one that starts with another header empties the cache, and all the
      lines after the right header are records. */
  lemma {:induction false} HeaderDecides(lines: seq<string>, lineno: nat, entries: map<Key, KernelConfig>, i: nat)
    requires FirstLine(lines, i) || (i == |lines| && forall k: nat :: k < i ==> lines[k] == "" || lines[k][0] == '#')
    ensures ParseLines(lines, lineno, false, entries) ==
      if i == |lines| then (entries, Loaded)
      else if lines[i] != "SCAMP_AUTOTUNE_V1" then (map[], Loaded)
      else ParseLines(lines[i + 1..], lineno + i + 1, true, entries)
    decreases i
  {
    hide ParseRecord;
    if i > 0 {
      assert Skipped(lines[0]);
      var rest := lines[1..];
      assert forall k: nat :: k < |rest| ==> rest[k] == lines[k + 1];
      HeaderDecides(rest, lineno + 1, entries, i - 1);
      if i < |lines| {
        assert rest[i..] == lines[i + 1..];
      }
    }
  }

  /** After the header the outcome is the error of the first bad line, with its number in the text; without a bad line
      all has been loaded. */
  lemma {:induction false} FirstErrorDecides(lines: seq<string>, lineno: nat, entries: map<Key, KernelConfig>, i: nat)
    requires i <= |lines|
    requires forall k: nat :: k < i && !Skipped(lines[k]) ==> ParseRecord(lines[k], lineno + k + 1).Record?
    requires i < |lines| ==> !Skipped(lines[i]) && ParseRecord(lines[i], lineno + i + 1).BadLine?
    ensures ParseLines(lines, lineno, true, entries).1 ==
      if i == |lines| then Loaded else ParseRecord(lines[i], lineno + i + 1).outcome
    decreases |lines|
  {
    hide ParseRecord, Skipped;
    if i > 0 {
      var rest := lines[1..];
      assert forall k: nat :: k < |rest| ==> rest[k] == lines[k + 1];
      forall k: nat | k < i - 1 && !Skipped(rest[k]) ensures ParseRecord(rest[k], lineno + 1 + k + 1).Record? {
        assert lineno + 1 + k + 1 == lineno + (k + 1) + 1;
        assert ParseRecord(lines[k + 1], lineno + (k + 1) + 1).Record?;
      }
      assert lineno + 1 + (i - 1) + 1 == lineno + i + 1;
      var next := if Skipped(lines[0]) then entries
        else entries[ParseRecord(lines[0], lineno + 1).key := ParseRecord(lines[0], lineno + 1).config];
      assert !Skipped(lines[0]) ==> ParseRecord(lines[0], lineno + 0 + 1).Record?;
      FirstErrorDecides(rest, lineno + 1, next, i - 1);
    }
  }

  function Parse(text: string): (map<Key, KernelConfig>, Outcome) {
    ParseLines(Pieces(text, '\n'), 0, false, map[])
  }

  // ---------- Printing ----------

  function Fields(key: Key, c: KernelConfig): seq<string> {
    [key.deviceKey, ProfileTypeName(key.profileType), PrecisionTypeName(key.precision), Print(c.blocksz),
      Print(c.blocksPerSm),
     Print(c.diagsPerThread), Print(c.unrolledRows), Print(c.outerUnrolledRows), Print(c.kernelTileIters)]
  }

  function Joined(parts: seq<string>, sep: char): string {
    if parts == [] then [] else if |parts| == 1 then parts[0] else parts[0] + [sep] + Joined(parts[1..], sep)
  }

  function Line(key: Key, config: KernelConfig): string {
    Joined(Fields(key, config), FIELD_SEP)
  }

  /** The record lines of `order`, each with its newline. */
  function RecordText(entries: map<Key, KernelConfig>, order: seq<Key>): string
    requires forall k :: k in order ==> k in entries
  {
    if order == [] then [] else Line(order[0], entries[order[0]]) + "\n" + RecordText(entries, order[1..])
  }

  /** What `Save` prints when the hash map hands out its entries in this order. */
  function Text(entries: map<Key, KernelConfig>, order: seq<Key>): string
    requires forall k :: k in order ==> k in entries
  {
    HEADER + "\n" + (FIELDS_COMMENT + "\n" + (TILE_COMMENT + "\n" + RecordText(entries, order)))
  }

  /** `order` lists the keys of the map, each once. */
  ghost predicate Enumerates(order: seq<Key>, entries: map<Key, KernelConfig>) {
    && (forall k :: k in order <==> k in entries)
    && (forall i, j :: 0 <= i < j < |order| ==> order[i] != order[j])
  }

  // ---------- The round trip ----------

  /** Device keys that survive: no separator, no newline, and no comment mark in front. */
  predicate Clean(deviceKey: string) {
    FIELD_SEP !in deviceKey && '\n' !in deviceKey && (deviceKey == [] || deviceKey[0] != '#')
  }

  lemma {:induction false} PiecesOfJoined(parts: seq<string>, sep: char)
    requires |parts| > 0 && parts[|parts| - 1] != [] && forall p :: p in parts ==> sep !in p
    ensures Pieces(Joined(parts, sep), sep) == parts
  {
    hide Pieces;
    if |parts| == 1 {
      LastPiece(parts[0], sep);
    } else {
      PiecesOfJoined(parts[1..], sep);
      FirstPiece(parts[0], Joined(parts[1..], sep), sep);
      assert parts == [parts[0]] + parts[1..];
    }
  }

  lemma {:induction false} JoinedHolds(parts: seq<string>, sep: char, c: char)
    requires c != sep && forall p :: p in parts ==> c !in p
    ensures c !in Joined(parts, sep)
  {
    if |parts| > 1 {
      JoinedHolds(parts[1..], sep, c);
    }
  }

  lemma ProfileTypeNameIsPlain(t: ProfileType)
    ensures FIELD_SEP !in ProfileTypeName(t) && '\n' !in ProfileTypeName(t)
  {
    LongNamesArePlain();
  }

  lemma LongNamesArePlain()
    ensures FIELD_SEP !in "APPROX_ALL_NEIGHBORS" && '\n' !in "APPROX_ALL_NEIGHBORS"
    ensures FIELD_SEP !in "FREQUENCY_THRESH" && '\n' !in "FREQUENCY_THRESH"
    ensures FIELD_SEP !in "MATRIX_SUMMARY" && '\n' !in "MATRIX_SUMMARY"
  {
  }

  lemma PrecisionTypeNameIsPlain(p: Precision)
    ensures FIELD_SEP !in PrecisionTypeName(p) && '\n' !in PrecisionTypeName(p)
  {
  }

  lemma FieldsAreClean(key: Key, config: KernelConfig)
    requires Clean(key.deviceKey)
    ensures forall p :: p in Fields(key, config) ==> FIELD_SEP !in p && '\n' !in p
    ensures Fields(key, config)[8] != []
  {
    PrintedIsPlain(config.blocksz);
    PrintedIsPlain(config.blocksPerSm);
    PrintedIsPlain(config.diagsPerThread);
    PrintedIsPlain(config.unrolledRows);
    PrintedIsPlain(config.outerUnrolledRows);
    PrintedIsPlain(config.kernelTileIters);
    ProfileTypeNameIsPlain(key.profileType);
    PrecisionTypeNameIsPlain(key.precision);
    hide Print, ProfileTypeName, PrecisionTypeName;
  }

  lemma ConfigRoundTrip(key: Key, config: KernelConfig)
    ensures ParseConfig(Fields(key, config)) == Some(config)
  {
    hide Stoi, Print;
    StoiOfPrinted(config.blocksz);
    StoiOfPrinted(config.blocksPerSm);
    StoiOfPrinted(config.diagsPerThread);
    StoiOfPrinted(config.unrolledRows);
    StoiOfPrinted(config.outerUnrolledRows);
    StoiOfPrinted(config.kernelTileIters);
  }

  /** A printed record reads back as itself. */
  lemma RecordRoundTrip(key: Key, config: KernelConfig, lineno: nat)
    requires Clean(key.deviceKey)
    ensures ParseRecord(Line(key, config), lineno) == Record(key, config)
  {
    FieldsAreClean(key, config);
    ConfigRoundTrip(key, config);
    hide ProfileTypeOf, PrecisionOf, ProfileTypeName, PrecisionTypeName, Pieces, Joined, ParseConfig, Print;
    PiecesOfJoined(Fields(key, config), FIELD_SEP);
    NamesAreDistinct(ProfileTypeName(key.profileType), Some(key.profileType),
      ProfileTypeOf(ProfileTypeName(key.profileType)), None, None);
    NamesAreDistinct(PrecisionTypeName(key.precision), None, None, Some(key.precision),
      PrecisionOf(PrecisionTypeName(key.precision)));
  }

  lemma LineIsRead(key: Key, config: KernelConfig)
    requires Clean(key.deviceKey)
    ensures '\n' !in Line(key, config) && !Skipped(Line(key, config))
  {
    FieldsAreClean(key, config);
    JoinedHolds(Fields(key, config), FIELD_SEP, '\n');
  }

  /** The entries of the keys in `order`. */
  function Restricted(entries: map<Key, KernelConfig>, order: seq<Key>): map<Key, KernelConfig> {
    map k | k in order && k in entries :: entries[k]
  }

  lemma {:induction false} RecordsRoundTrip(entries: map<Key, KernelConfig>, order: seq<Key>, lineno: nat,
                                            acc: map<Key, KernelConfig>)
    requires forall k :: k in order ==> k in entries && Clean(k.deviceKey)
    ensures ParseLines(Pieces(RecordText(entries, order), '\n'), lineno, true, acc) ==
      (acc + Restricted(entries, order), Loaded)
    decreases |order|
  {
    if order == [] {
      assert acc + Restricted(entries, order) == acc;
    } else {
      var key, rest := order[0], order[1..];
      var config := entries[key];
      hide Pieces, Line, ParseRecord, Clean, Skipped, Restricted;
      LineIsRead(key, config);
      RecordRoundTrip(key, config, lineno + 1);
      RecordsRoundTrip(entries, rest, lineno + 1, acc[key := config]);
      FirstPiece(Line(key, config), RecordText(entries, rest), '\n');
      var lines := Pieces(RecordText(entries, rest), '\n');
      assert ([Line(key, config)] + lines)[1..] == lines;
      RestrictedStep(entries, order, acc);
    }
  }

  lemma RestrictedStep(entries: map<Key, KernelConfig>, order: seq<Key>, acc: map<Key, KernelConfig>)
    requires order != [] && order[0] in entries
    ensures acc[order[0] := entries[order[0]]] + Restricted(entries, order[1..]) == acc + Restricted(entries, order)
  {
  }

  lemma NoneInSum(a: string, b: string, c: char)
    requires c !in a && c !in b
    ensures c !in a + b
  {
  }

  lemma HeaderIsPlain()
    ensures '\n' !in HEADER && !Skipped(HEADER)
  {
  }

  lemma FieldsCommentIsPlain()
    ensures '\n' !in FIELDS_COMMENT && Skipped(FIELDS_COMMENT)
  {
    var a, b, c := "# device_key|profile_type|", "precision|blocksz|blocks_per_sm|", "diags_per_thread|unrolled_rows|";
    var d, e := "outer_unrolled_rows|", "kernel_tile_iters";
    PlainPieces();
    MorePlainPieces();
    NoneInSum(a, b, '\n');
    NoneInSum(a + b, c, '\n');
    NoneInSum(a + b + c, d, '\n');
    NoneInSum(a + b + c + d, e, '\n');
    assert FIELDS_COMMENT[0] == a[0];
  }

  lemma PlainPieces()
    ensures '\n' !in "# device_key|profile_type|" && '\n' !in "precision|blocksz|blocks_per_sm|"
  {
  }

  lemma MorePlainPieces()
    ensures '\n' !in "diags_per_thread|unrolled_rows|" && '\n' !in "outer_unrolled_rows|"
    ensures '\n' !in "kernel_tile_iters"
  {
  }

  lemma TileCommentIsPlain()
    ensures '\n' !in TILE_COMMENT && Skipped(TILE_COMMENT)
  {
    NoneInSum("# (tile_height = ", "kernel_tile_iters * ", '\n');
    NoneInSum("# (tile_height = " + "kernel_tile_iters * ", "outer_unrolled_rows)", '\n');
    assert TILE_COMMENT[0] == "# (tile_height = "[0];
  }

  lemma HeaderIsRead(lines: seq<string>)
    ensures ParseLines([HEADER] + ([FIELDS_COMMENT] + ([TILE_COMMENT] + lines)), 0, false, map[]) == ParseLines(lines,
      3, true, map[])
  {
    HeaderIsPlain();
    FieldsCommentIsPlain();
    TileCommentIsPlain();
    hide HEADER, FIELDS_COMMENT, TILE_COMMENT, Skipped, ParseRecord;
    var third := [TILE_COMMENT] + lines;
    var second := [FIELDS_COMMENT] + third;
    var first := [HEADER] + second;
    assert first[1..] == second && second[1..] == third && third[1..] == lines;
    assert ParseLines(first, 0, false, map[]) == ParseLines(second, 1, true, map[]);
    assert ParseLines(second, 1, true, map[]) == ParseLines(third, 2, true, map[]);
  }

  /** Reading what was printed, in any order of the records. */
  lemma CleanRoundTrip(entries: map<Key, KernelConfig>, order: seq<Key>)
    requires Enumerates(order, entries) && forall k :: k in entries ==> Clean(k.deviceKey)
    ensures Parse(Text(entries, order)) == (entries, Loaded)
  {
    HeaderIsPlain();
    FieldsCommentIsPlain();
    TileCommentIsPlain();
    hide HEADER, FIELDS_COMMENT, TILE_COMMENT, Pieces, RecordText, Skipped, ParseLines, ParseRecord;
    var records := RecordText(entries, order);
    var lines := Pieces(records, '\n');
    FirstPiece(TILE_COMMENT, records, '\n');
    FirstPiece(FIELDS_COMMENT, TILE_COMMENT + "\n" + records, '\n');
    FirstPiece(HEADER, FIELDS_COMMENT + "\n" + (TILE_COMMENT + "\n" + records), '\n');
    assert Pieces(Text(entries, order), '\n') == [HEADER] + ([FIELDS_COMMENT] + ([TILE_COMMENT] + lines));
    HeaderIsRead(lines);
    RecordsRoundTrip(entries, order, 3, map[]);
    assert map[] + Restricted(entries, order) == entries;
  }

  /** Every key that is ever read is clean. */
  lemma {:induction false} ReadKeysAreClean(lines: seq<string>, lineno: nat, headerSeen: bool,
                                            acc: map<Key, KernelConfig>)
    requires forall l :: l in lines ==> '\n' !in l
    requires forall k :: k in acc ==> Clean(k.deviceKey)
    ensures forall k :: k in ParseLines(lines, lineno, headerSeen, acc).0 ==> Clean(k.deviceKey)
    decreases |lines|
  {
    if lines != [] {
      var line := lines[0];
      if Skipped(line) || !headerSeen {
        ReadKeysAreClean(lines[1..], lineno + 1, headerSeen || !Skipped(line), acc);
      } else if ParseRecord(line, lineno + 1).Record? {
        FirstFieldIsClean(line);
        hide ParseRecord;
        var p := ParseRecord(line, lineno + 1);
        KeyIsFirstField(line, lineno + 1);
        ReadKeysAreClean(lines[1..], lineno + 1, headerSeen, acc[p.key := p.config]);
      }
    }
  }

  lemma KeyIsFirstField(line: string, lineno: nat)
    requires ParseRecord(line, lineno).Record?
    ensures |Pieces(line, FIELD_SEP)| > 0 && ParseRecord(line, lineno).key.deviceKey == Pieces(line, FIELD_SEP)[0]
  {
  }

  lemma FirstFieldIsClean(line: string)
    requires '\n' !in line && !Skipped(line)
    ensures |Pieces(line, FIELD_SEP)| > 0 && Clean(Pieces(line, FIELD_SEP)[0])
  {
    PiecesAreClean(line, FIELD_SEP);
    assert Pieces(line, FIELD_SEP)[0] == line[..IndexOf(line, FIELD_SEP)];
  }

  /** The cache survives being written and read, in whatever order its records come, if and only if every device
      key is free of separators and newlines and does not start with a comment mark. */
  lemma RoundTripIffClean(entries: map<Key, KernelConfig>, order: seq<Key>)
    requires Enumerates(order, entries)
    ensures Parse(Text(entries, order)) == (entries, Loaded) <==> forall k :: k in entries ==> Clean(k.deviceKey)
  {
    hide Text;
    if forall k :: k in entries ==> Clean(k.deviceKey) {
      CleanRoundTrip(entries, order);
    }
    PiecesAreClean(Text(entries, order), '\n');
    ReadKeysAreClean(Pieces(Text(entries, order), '\n'), 0, false, map[]);
  }

  // ---------- The cache ----------

  /** The cache in memory. */
  class Cache {
    var entries: map<Key, KernelConfig>

    constructor ()
      ensures entries == map[]
    {
      entries := map[];
    }

    /** Print every record, in the order the hash map hands them out. */
    method Save(order: seq<Key>) returns (out: string)
      requires Enumerates(order, entries)
      ensures out == Text(entries, order)
    {
      hide HEADER, FIELDS_COMMENT, TILE_COMMENT, Line, Fields;
      out := HEADER + "\n" + (FIELDS_COMMENT + "\n" + (TILE_COMMENT + "\n"));
      ghost var head := out;
      for i := 0 to |order|
        invariant out + RecordText(entries, order[i..]) == head + RecordText(entries, order)
      {
        ghost var was := out;
        out := out + Line(order[i], entries[order[i]]) + "\n";
        assert order[i..][1..] == order[i + 1..];
        assert was + RecordText(entries, order[i..]) == out + RecordText(entries, order[i + 1..]);
      }
      assert out == head + RecordText(entries, order);
      assert head + RecordText(entries, order) == Text(entries, order);
    }

    /** Split into fields; a wrong number of them is an error. */
    method SplitN(s: string, delim: char, n: nat) returns (ok: bool, fields: seq<string>)
      ensures fields == Pieces(s, delim) && (ok <==> |fields| == n)
    {
      hide Pieces;
      fields := [];
      var pos := 0;
      assert s[0..] == s;
      var got, field, next := GetLine(s, pos, delim);
      while got
        invariant pos <= |s| && fields + Pieces(s[pos..], delim) == Pieces(s, delim)
        invariant got <==> pos < |s|
        invariant got ==> pos < next <= |s| && Pieces(s[pos..], delim) == [field] + Pieces(s[next..], delim)
        invariant !got ==> Pieces(s[pos..], delim) == []
        decreases |s| - pos
      {
        fields := fields + [field];
        pos := next;
        got, field, next := GetLine(s, pos, delim);
      }
      ok := |fields| == n;
    }

    /** Read a text line by line into the entries. A different header empties the cache. */
    method ParseStream(text: string) returns (outcome: Outcome)
      modifies this
      ensures (entries, outcome) == ParseLines(Pieces(text, '\n'), 0, false, old(entries))
    {
      hide Pieces, ProfileTypeOf, PrecisionOf, Stoi, HEADER;
      var pos, lineno, headerSeen := 0, 0, false;
      assert text[0..] == text;
      ghost var result := ParseLines(Pieces(text, '\n'), 0, false, entries);
      while true
        invariant pos <= |text| && ParseLines(Pieces(text[pos..], '\n'), lineno, headerSeen, entries) == result
        decreases |text| - pos
      {
        var got, line, next := GetLine(text, pos, '\n');
        if !got {
          return Loaded;
        }
        ghost var rest := Pieces(text[next..], '\n');
        assert ([line] + rest)[0] == line && ([line] + rest)[1..] == rest;
        pos, lineno := next, lineno + 1;
        if line == [] || line[0] == '#' {
          continue;
        }
        if !headerSeen {
          if line != HEADER {
            entries := map[];
            return Loaded;
          }
          headerSeen := true;
          continue;
        }
        var parsed := ReadRecord(line, lineno);
        if parsed.BadLine? {
          return parsed.outcome;
        }
        entries := entries[parsed.key := parsed.config];
      }
    }

    method ReadRecord(line: string, lineno: nat) returns (parsed: Parsed)
      ensures parsed == ParseRecord(line, lineno)
    {
      hide Pieces, ProfileTypeOf, PrecisionOf, Stoi;
      var ok, fields := SplitN(line, FIELD_SEP, NUM_RECORD_FIELDS);
      if !ok {
        return BadLine(Malformed(lineno));
      }
      var profileType := ParseProfileTypeName(fields[1]);
      if profileType.None? {
        return BadLine(UnknownProfileType(lineno));
      }
      var precision := ParsePrecisionTypeName(fields[2]);
      if precision.None? {
        return BadLine(UnknownPrecision(lineno));
      }
      var config := ParseConfig(fields);
      if config.None? {
        return BadLine(MalformedInteger(lineno));
      }
      parsed := Record(Key(fields[0], profileType.value, precision.value), config.value);
    }

    method LoadFromString(contents: string) returns (outcome: Outcome)
      modifies this
      ensures (entries, outcome) == Parse(contents)
    {
      entries := map[];
      outcome := ParseStream(contents);
    }

    function Lookup(deviceKey: string, profileType: ProfileType, precision: Precision): (r: Option<KernelConfig>)
      reads this
      ensures
        var key := Key(deviceKey, profileType, precision);
        forall c :: r == Some(c) <==> key in entries && entries[key] == c
    {
      var k := Key(deviceKey, profileType, precision);
      if k in entries then Some(entries[k]) else None
    }

    method Store(deviceKey: string, profileType: ProfileType, precision: Precision, config: KernelConfig)
      modifies this
      ensures entries == old(entries)[Key(deviceKey, profileType, precision) := config]
    {
      entries := entries[Key(deviceKey, profileType, precision) := config];
    }
  }
}

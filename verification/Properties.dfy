/** `server_settings.py`: the reader of `server.properties`, and the writer that keeps its layout. */
module Properties {
  import opened Common
  import opened Sequences
  import opened Text

  datatype Gamemode = Survival | Creative | Adventure | Spectator

  datatype Difficulty = Peaceful | Easy | Normal | Hard

  datatype Settings = Settings(
    motd: string,
    gamemode: Gamemode,
    difficulty: Difficulty,
    maxPlayers: int,
    whitelist: bool,
    pvp: bool,
    allowFlight: bool,
    viewDistance: int,
    simulationDistance: int)

  const DEFAULT_MOTD := "A Minecraft Server"

  const MOTD_LIMIT := 100

  const DEFAULTS := Settings(DEFAULT_MOTD, Survival, Easy, 20, false, true, false, 10, 10)

  /** The bounds pydantic checks whenever settings are built. */
  predicate IsValid(s: Settings) {
    && 1 <= |s.motd| <= MOTD_LIMIT
    && 1 <= s.maxPlayers <= 1000
    && 2 <= s.viewDistance <= 32
    && 2 <= s.simulationDistance <= 32
  }

  datatype Key =
    | Motd | GamemodeKey | DifficultyKey | MaxPlayers | WhiteList | Pvp | AllowFlight | ViewDistance | SimulationDistance

  const KEYS: seq<Key> :=
    [Motd, GamemodeKey, DifficultyKey, MaxPlayers, WhiteList, Pvp, AllowFlight, ViewDistance, SimulationDistance]

  function KeyName(k: Key): string {
    match k
    case Motd => "motd"
    case GamemodeKey => "gamemode"
    case DifficultyKey => "difficulty"
    case MaxPlayers => "max-players"
    case WhiteList => "white-list"
    case Pvp => "pvp"
    case AllowFlight => "allow-flight"
    case ViewDistance => "view-distance"
    case SimulationDistance => "simulation-distance"
  }

  function KeyAmong(s: string, keys: seq<Key>): Option<Key> {
    if keys == [] then None
    else if s == KeyName(keys[0]) then Some(keys[0])
    else KeyAmong(s, keys[1..])
  }

  function KeyNamed(s: string): Option<Key> {
    KeyAmong(s, KEYS)
  }

  const GAMEMODES: seq<Gamemode> := [Survival, Creative, Adventure, Spectator]

  function GamemodeName(g: Gamemode): string {
    match g
    case Survival => "survival"
    case Creative => "creative"
    case Adventure => "adventure"
    case Spectator => "spectator"
  }

  /** The digit older servers wrote for the mode or difficulty number `i`. */
  function LegacyDigit(i: nat): string
    requires i < 10
  {
    [(i + '0' as int) as char]
  }

  function GamemodeFrom(v: string, i: nat): Option<Gamemode>
    requires i <= 4
    decreases 4 - i
  {
    if i == 4 then None
    else if v == LegacyDigit(i) || v == GamemodeName(GAMEMODES[i]) then Some(GAMEMODES[i])
    else GamemodeFrom(v, i + 1)
  }

  /** Names in any case, and the numbers older servers wrote. */
  function GamemodeNamed(value: string): Option<Gamemode> {
    GamemodeFrom(Lower(value), 0)
  }

  const DIFFICULTIES: seq<Difficulty> := [Peaceful, Easy, Normal, Hard]

  function DifficultyName(d: Difficulty): string {
    match d
    case Peaceful => "peaceful"
    case Easy => "easy"
    case Normal => "normal"
    case Hard => "hard"
  }

  function DifficultyFrom(v: string, i: nat): Option<Difficulty>
    requires i <= 4
    decreases 4 - i
  {
    if i == 4 then None
    else if v == LegacyDigit(i) || v == DifficultyName(DIFFICULTIES[i]) then Some(DIFFICULTIES[i])
    else DifficultyFrom(v, i + 1)
  }

  function DifficultyNamed(value: string): Option<Difficulty> {
    DifficultyFrom(Lower(value), 0)
  }

  function BoolName(b: bool): string {
    if b then "true" else "false"
  }

  function ParseBool(value: string): bool {
    Lower(Strip(value)) == "true"
  }

  function ParseBounded(value: string, low: int, high: int, before: int): int {
    match ParseInt(value)
    case None => before
    case Some(n) => if low <= n <= high then n else before
  }

  // ------------------------------------------------------------------
  // Reading
  // ------------------------------------------------------------------

  /** What one assignment does to the values read so far; unreadable values leave them alone. */
  function SetField(s: Settings, k: Key, value: string): Settings {
    match k
    case Motd =>
      s.(motd := var cut := if |value| > MOTD_LIMIT then value[..MOTD_LIMIT] else value;
                 if cut == "" then DEFAULT_MOTD else cut)
    case GamemodeKey =>
      (match GamemodeNamed(value)
       case None => s
       case Some(g) => s.(gamemode := g))
    case DifficultyKey =>
      (match DifficultyNamed(value)
       case None => s
       case Some(d) => s.(difficulty := d))
    case MaxPlayers => s.(maxPlayers := ParseBounded(value, 1, 1000, s.maxPlayers))
    case WhiteList => s.(whitelist := ParseBool(value))
    case Pvp => s.(pvp := ParseBool(value))
    case AllowFlight => s.(allowFlight := ParseBool(value))
    case ViewDistance => s.(viewDistance := ParseBounded(value, 2, 32, s.viewDistance))
    case SimulationDistance => s.(simulationDistance := ParseBounded(value, 2, 32, s.simulationDistance))
  }

  predicate IsCommentOrBlank(line: string) {
    var stripped := Strip(line);
    stripped == "" || stripped[0] == '#' || stripped[0] == '!'
  }

  /** The managed key a line assigns to, comments not considered. */
  function Slot(line: string): Option<Key> {
    var k := IndexOf(line, '=');
    if k == |line| then None else KeyNamed(Strip(line[..k]))
  }

  function ReadLine(s: Settings, line: string): Settings {
    if IsCommentOrBlank(line) then s
    else
      match Slot(line)
      case None => s
      case Some(k) => SetField(s, k, Strip(line[IndexOf(line, '=') + 1..]))
  }

  function ReadLines(s: Settings, lines: seq<string>): Settings
    decreases |lines|
  {
    if lines == [] then s else ReadLines(ReadLine(s, lines[0]), lines[1..])
  }

  function Read(text: string): Settings {
    ReadLines(DEFAULTS, SplitLines(text))
  }

  // ------------------------------------------------------------------
  // Writing
  // ------------------------------------------------------------------

  /** Carriage returns and line feeds in a message become spaces; other breaks are written as they are. */
  function FlattenLine(s: string): string {
    if s == "" then ""
    else [if s[0] == '\r' || s[0] == '\n' then ' ' else s[0]] + FlattenLine(s[1..])
  }

  function Serialized(s: Settings, k: Key): string {
    match k
    case Motd => FlattenLine(s.motd)
    case GamemodeKey => GamemodeName(s.gamemode)
    case DifficultyKey => DifficultyName(s.difficulty)
    case MaxPlayers => ShowInt(s.maxPlayers)
    case WhiteList => BoolName(s.whitelist)
    case Pvp => BoolName(s.pvp)
    case AllowFlight => BoolName(s.allowFlight)
    case ViewDistance => ShowInt(s.viewDistance)
    case SimulationDistance => ShowInt(s.simulationDistance)
  }

  function ShowInt(n: int): string {
    if n < 0 then "-" + ShowNat(-n) else ShowNat(n)
  }

  function Assignment(s: Settings, k: Key): string {
    KeyName(k) + "=" + Serialized(s, k)
  }

  /** The keys of `keys` that have not been written yet. */
  function Missing(keys: seq<Key>, written: set<Key>): seq<Key> {
    if keys == [] then []
    else (if keys[0] in written then [] else [keys[0]]) + Missing(keys[1..], written)
  }

  function Assignments(s: Settings, keys: seq<Key>): seq<string> {
    if keys == [] then [] else [Assignment(s, keys[0])] + Assignments(s, keys[1..])
  }

  /** The rewriting loop: the first line of each managed key is replaced, later ones are dropped. */
  function Rewrite(lines: seq<string>, s: Settings, written: set<Key>): seq<string> {
    if lines == [] then Assignments(s, Missing(KEYS, written))
    else
      match Slot(lines[0])
      case None => [lines[0]] + Rewrite(lines[1..], s, written)
      case Some(k) =>
        if k in written then Rewrite(lines[1..], s, written)
        else [Assignment(s, k)] + Rewrite(lines[1..], s, written + {k})
  }

  function Write(text: string, s: Settings): string {
    JoinLines(Rewrite(SplitLines(text), s, {}))
  }

  // ------------------------------------------------------------------
  // The layout of a file: what each line is for
  // ------------------------------------------------------------------

  datatype Place = Kept(line: string) | Managed(key: Key)

  function PlaceOf(line: string): Place {
    match Slot(line)
    case None => Kept(line)
    case Some(k) => Managed(k)
  }

  function Layout(lines: seq<string>): seq<Place> {
    if lines == [] then [] else [PlaceOf(lines[0])] + Layout(lines[1..])
  }

  function Managers(keys: seq<Key>): seq<Place> {
    if keys == [] then [] else [Managed(keys[0])] + Managers(keys[1..])
  }

  /** The layout a rewritten file has to have: kept lines in order, each key where it first was, the rest at the end. */
  function Normalized(places: seq<Place>, written: set<Key>): seq<Place> {
    if places == [] then Managers(Missing(KEYS, written))
    else
      match places[0]
      case Kept(_) => [places[0]] + Normalized(places[1..], written)
      case Managed(k) =>
        if k in written then Normalized(places[1..], written)
        else [places[0]] + Normalized(places[1..], written + {k})
  }

  function RenderPlace(p: Place, s: Settings): string {
    match p
    case Kept(line) => line
    case Managed(k) => Assignment(s, k)
  }

  function Render(places: seq<Place>, s: Settings): seq<string> {
    if places == [] then []
    else
      [RenderPlace(places[0], s)] + Render(places[1..], s)
  }

  lemma KeyNameInjective(j: Key, k: Key)
    ensures KeyName(j) == KeyName(k) ==> j == k
  {
  }

  lemma {:induction false} KeyAmongFinds(k: Key, keys: seq<Key>)
    requires k in keys
    ensures KeyAmong(KeyName(k), keys) == Some(k)
  {
    KeyNameInjective(k, keys[0]);
    if keys[0] != k {
      KeyAmongFinds(k, keys[1..]);
    }
  }

  lemma KeyNameIsKnown(k: Key)
    ensures KeyNamed(KeyName(k)) == Some(k)
  {
    AllKeys();
    KeyAmongFinds(k, KEYS);
  }

  lemma KeyNameShape(k: Key)
    ensures IsTrimmed(KeyName(k)) && KeyName(k) != "" && KeyName(k)[0] != '#' && KeyName(k)[0] != '!'
  {
  }

  lemma KeyNameHasNoEquals(k: Key)
    ensures '=' !in KeyName(k)
  {
  }

  lemma KeyNameIsOneLine(k: Key)
    ensures IsOneLine(KeyName(k))
  {
    if k.SimulationDistance? {
      assert IsOneLine("simulation") && IsOneLine("-distance");
      assert KeyName(k) == "simulation" + "-distance";
    }
  }

  lemma IndexOfAfter(a: string, c: char, b: string)
    requires c !in a
    ensures IndexOf(a + [c] + b, c) == |a|
  {
    var s := a + [c] + b;
    assert s[|a|] == c;
    assert forall i :: 0 <= i < |a| ==> s[i] == a[i] && a[i] in a;
  }

  /** A written assignment is read as its key and its value. */
  lemma SlotOfAssignment(s: Settings, k: Key)
    ensures Slot(Assignment(s, k)) == Some(k) && !IsCommentOrBlank(Assignment(s, k))
    ensures Assignment(s, k)[IndexOf(Assignment(s, k), '=') + 1..] == Serialized(s, k)
  {
    KeyNameIsKnown(k);
    KeyNameShape(k);
    KeyNameHasNoEquals(k);
    var name := KeyName(k);
    var line := Assignment(s, k);
    IndexOfAfter(name, '=', Serialized(s, k));
    assert line == name + ['='] + Serialized(s, k);
    assert line[..|name|] == name && line[|name| + 1..] == Serialized(s, k);
    StripTrims(name);
    assert line[0] == name[0];
    StripFront(line);
  }

  /** Stripping does not remove a first character that is no space. */
  lemma StripFront(s: string)
    requires s != "" && !IsSpace(s[0])
    ensures Strip(s) != "" && Strip(s)[0] == s[0]
  {
    StripRightKeepsFront(s);
  }

  lemma {:induction false} StripRightKeepsFront(s: string)
    requires s != "" && !IsSpace(s[0])
    ensures StripRight(s) != "" && StripRight(s)[0] == s[0]
    decreases |s|
  {
    if IsSpace(s[|s| - 1]) {
      StripRightKeepsFront(s[..|s| - 1]);
    }
  }

  /** What the writer puts after the equals sign is one line, unless the message has an unusual break in it. */
  lemma SerializedIsOneLine(s: Settings, k: Key)
    requires IsValid(s) && IsOneLine(FlattenLine(s.motd))
    ensures IsOneLine(Serialized(s, k))
  {
    match k
    case MaxPlayers => ParseShown(s.maxPlayers, "");
    case ViewDistance => ParseShown(s.viewDistance, "");
    case SimulationDistance => ParseShown(s.simulationDistance, "");
    case GamemodeKey => GamemodeNameIsOneLine(s.gamemode);
    case DifficultyKey => DifficultyNameIsOneLine(s.difficulty);
    case _ =>
  }

  lemma GamemodeNameIsOneLine(g: Gamemode)
    ensures IsOneLine(GamemodeName(g))
  {
  }

  lemma DifficultyNameIsOneLine(d: Difficulty)
    ensures IsOneLine(DifficultyName(d))
  {
  }

  // ------------------------------------------------------------------
  // Layout laws
  // ------------------------------------------------------------------

  lemma {:induction false} RenderManagers(s: Settings, keys: seq<Key>)
    ensures Render(Managers(keys), s) == Assignments(s, keys)
  {
    if keys != [] {
      RenderManagers(s, keys[1..]);
    }
  }

  /** The loop writes the normalized layout of what it reads. */
  lemma {:induction false} RewriteRenders(lines: seq<string>, s: Settings, written: set<Key>)
    ensures Rewrite(lines, s, written) == Render(Normalized(Layout(lines), written), s)
    decreases |lines|
  {
    if lines == [] {
      RenderManagers(s, Missing(KEYS, written));
    } else {
      var rest := Layout(lines[1..]);
      assert Layout(lines)[1..] == rest;
      match Slot(lines[0])
      case None =>
        RewriteRenders(lines[1..], s, written);
        RenderCons(Kept(lines[0]), Normalized(rest, written), s);
      case Some(k) =>
        if k in written {
          RewriteRenders(lines[1..], s, written);
        } else {
          RewriteRenders(lines[1..], s, written + {k});
          RenderCons(Managed(k), Normalized(rest, written + {k}), s);
        }
    }
  }

  lemma RenderCons(p: Place, places: seq<Place>, s: Settings)
    ensures Render([p] + places, s) ==
            [RenderPlace(p, s)] + Render(places, s)
  {
    assert ([p] + places)[1..] == places;
  }

  /** Every kept place is a line that assigns to no managed key. */
  ghost predicate IsLayout(places: seq<Place>) {
    forall p :: p in places && p.Kept? ==> Slot(p.line).None?
  }

  lemma {:induction false} LayoutOfLines(lines: seq<string>)
    ensures IsLayout(Layout(lines))
  {
    if lines != [] {
      LayoutOfLines(lines[1..]);
    }
  }

  lemma {:induction false} NormalizedIsLayout(places: seq<Place>, written: set<Key>)
    requires IsLayout(places)
    ensures IsLayout(Normalized(places, written))
    decreases |places|
  {
    if places == [] {
      ManagersAreManaged(Missing(KEYS, written));
    } else {
      assert places == [places[0]] + places[1..];
      match places[0]
      case Kept(_) => NormalizedIsLayout(places[1..], written);
      case Managed(k) => NormalizedIsLayout(places[1..], if k in written then written else written + {k});
    }
  }

  lemma {:induction false} ManagersAreManaged(keys: seq<Key>)
    ensures forall p :: p in Managers(keys) <==> p.Managed? && p.key in keys
  {
    if keys != [] {
      ManagersAreManaged(keys[1..]);
      assert keys == [keys[0]] + keys[1..];
    }
  }

  /** Written lines have the layout they were rendered from. */
  lemma {:induction false} LayoutOfRender(places: seq<Place>, s: Settings)
    requires IsLayout(places)
    ensures Layout(Render(places, s)) == places
  {
    if places != [] {
      assert places == [places[0]] + places[1..];
      LayoutOfRender(places[1..], s);
      match places[0]
      case Kept(line) =>
      case Managed(k) => SlotOfAssignment(s, k);
    }
  }

  function KeySequence(places: seq<Place>): seq<Key> {
    if places == [] then []
    else (if places[0].Managed? then [places[0].key] else []) + KeySequence(places[1..])
  }

  function KeptLines(places: seq<Place>): seq<string> {
    if places == [] then []
    else (if places[0].Kept? then [places[0].line] else []) + KeptLines(places[1..])
  }

  lemma {:induction false} MissingMembers(keys: seq<Key>, written: set<Key>)
    requires Distinct(keys)
    ensures Distinct(Missing(keys, written))
    ensures forall k :: k in Missing(keys, written) <==> k in keys && k !in written
  {
    if keys != [] {
      DistinctTail(keys);
      MissingMembers(keys[1..], written);
      assert keys == [keys[0]] + keys[1..];
      if keys[0] !in written {
        DistinctConcat([keys[0]], Missing(keys[1..], written));
      }
    }
  }

  lemma AllKeys()
    ensures Distinct(KEYS) && forall k: Key :: k in KEYS
  {
    forall k: Key ensures k in KEYS {
      match k
      case Motd => assert KEYS[0] == k;
      case GamemodeKey => assert KEYS[1] == k;
      case DifficultyKey => assert KEYS[2] == k;
      case MaxPlayers => assert KEYS[3] == k;
      case WhiteList => assert KEYS[4] == k;
      case Pvp => assert KEYS[5] == k;
      case AllowFlight => assert KEYS[6] == k;
      case ViewDistance => assert KEYS[7] == k;
      case SimulationDistance => assert KEYS[8] == k;
    }
  }

  lemma {:induction false} ManagersSequence(keys: seq<Key>)
    ensures KeySequence(Managers(keys)) == keys && KeptLines(Managers(keys)) == []
  {
    if keys != [] {
      ManagersSequence(keys[1..]);
    }
  }

  lemma PlaceCons(p: Place, places: seq<Place>)
    ensures KeySequence([p] + places) == (if p.Managed? then [p.key] else []) + KeySequence(places)
    ensures KeptLines([p] + places) == (if p.Kept? then [p.line] else []) + KeptLines(places)
  {
    assert ([p] + places)[1..] == places;
  }

  /** The kept lines survive verbatim and in order, and each managed key that was still to be written comes once. */
  lemma {:induction false} NormalizedPlaces(places: seq<Place>, written: set<Key>)
    ensures KeptLines(Normalized(places, written)) == KeptLines(places)
    ensures Distinct(KeySequence(Normalized(places, written)))
    ensures forall k :: k in KeySequence(Normalized(places, written)) <==> k !in written
    decreases |places|
  {
    if places == [] {
      AllKeys();
      MissingMembers(KEYS, written);
      ManagersSequence(Missing(KEYS, written));
    } else {
      match places[0]
      case Kept(_) =>
        NormalizedPlaces(places[1..], written);
        PlaceCons(places[0], Normalized(places[1..], written));
      case Managed(k) =>
        if k in written {
          NormalizedPlaces(places[1..], written);
        } else {
          NormalizedPlaces(places[1..], written + {k});
          var rest := Normalized(places[1..], written + {k});
          PlaceCons(places[0], rest);
          DistinctConcat([k], KeySequence(rest));
        }
    }
  }

  lemma {:induction false} NormalizedAgain(places: seq<Place>, written: set<Key>)
    requires Distinct(KeySequence(places))
    requires forall k :: k in KeySequence(places) <==> k !in written
    ensures Normalized(places, written) == places
    decreases |places|
  {
    if places == [] {
      AllKeys();
      MissingMembers(KEYS, written);
      var missing := Missing(KEYS, written);
      assert forall i :: 0 <= i < |missing| ==> missing[i] in missing;
    } else {
      var rest := places[1..];
      assert places == [places[0]] + rest;
      PlaceCons(places[0], rest);
      match places[0]
      case Kept(_) =>
        assert KeySequence(places) == KeySequence(rest);
        NormalizedAgain(rest, written);
      case Managed(k) =>
        DistinctTail(KeySequence(places));
        assert KeySequence(places)[1..] == KeySequence(rest) && KeySequence(places)[0] == k;
        assert k in KeySequence(places);
        NormalizedAgain(rest, written + {k});
    }
  }

  /** The lines of a rewritten file, with the layout each of them keeps. */
  lemma RewrittenLines(lines: seq<string>, s: Settings)
    ensures var places := Normalized(Layout(lines), {});
            && Rewrite(lines, s, {}) == Render(places, s)
            && IsLayout(places) && Layout(Rewrite(lines, s, {})) == places
  {
    LayoutOfLines(lines);
    NormalizedIsLayout(Layout(lines), {});
    RewriteRenders(lines, s, {});
    LayoutOfRender(Normalized(Layout(lines), {}), s);
  }

  lemma {:induction false} RewriteIsLines(lines: seq<string>, s: Settings, written: set<Key>)
    requires AllOneLine(lines) && IsValid(s) && IsOneLine(FlattenLine(s.motd))
    ensures AllOneLine(Rewrite(lines, s, written))
    decreases |lines|
  {
    if lines == [] {
      AssignmentsAreLines(s, Missing(KEYS, written));
    } else {
      assert forall i :: 0 <= i < |lines[1..]| ==> lines[1..][i] == lines[i + 1];
      match Slot(lines[0])
      case None => RewriteIsLines(lines[1..], s, written);
      case Some(k) =>
        RewriteIsLines(lines[1..], s, if k in written then written else written + {k});
        AssignmentIsLine(s, k);
    }
  }

  lemma AssignmentIsLine(s: Settings, k: Key)
    requires IsValid(s) && IsOneLine(FlattenLine(s.motd))
    ensures IsOneLine(Assignment(s, k))
  {
    KeyNameIsOneLine(k);
    SerializedIsOneLine(s, k);
    OneLineConcat(KeyName(k), "=", Serialized(s, k));
  }

  lemma OneLineConcat(a: string, b: string, c: string)
    requires IsOneLine(a) && IsOneLine(b) && IsOneLine(c)
    ensures IsOneLine(a + b + c)
  {
  }

  lemma {:induction false} AssignmentsAreLines(s: Settings, keys: seq<Key>)
    requires IsValid(s) && IsOneLine(FlattenLine(s.motd))
    ensures AllOneLine(Assignments(s, keys))
  {
    if keys != [] {
      AssignmentIsLine(s, keys[0]);
      AssignmentsAreLines(s, keys[1..]);
    }
  }

  /** The written text splits into the written lines again. */
  lemma WrittenLines(text: string, s: Settings)
    requires IsValid(s) && IsOneLine(FlattenLine(s.motd))
    ensures SplitLines(Write(text, s)) == Rewrite(SplitLines(text), s, {})
  {
    LinesHaveNoBreak(text);
    RewriteIsLines(SplitLines(text), s, {});
    SplitJoin(Rewrite(SplitLines(text), s, {}));
  }

  /**
    * Rewriting keeps the layout: the lines that assign to no managed key survive verbatim and in order, and
    * each of the nine keys is assigned to exactly once.
    */
  lemma WriteKeepsLayout(text: string, s: Settings)
    requires IsValid(s) && IsOneLine(FlattenLine(s.motd))
    ensures var before, after := Layout(SplitLines(text)), Layout(SplitLines(Write(text, s)));
            && after == Normalized(before, {})
            && KeptLines(after) == KeptLines(before)
            && Distinct(KeySequence(after)) && forall k: Key :: k in KeySequence(after)
  {
    WrittenLines(text, s);
    RewrittenLines(SplitLines(text), s);
    NormalizedPlaces(Layout(SplitLines(text)), {});
  }

  /** The last write wins: what was written in between leaves no trace. */
  lemma LastWriteWins(text: string, a: Settings, b: Settings)
    requires IsValid(a) && IsOneLine(FlattenLine(a.motd))
    ensures Write(Write(text, a), b) == Write(text, b)
  {
    var lines := SplitLines(text);
    WrittenLines(text, a);
    RewrittenLines(lines, a);
    RewrittenLines(lines, b);
    var places := Normalized(Layout(lines), {});
    NormalizedPlaces(Layout(lines), {});
    NormalizedAgain(places, {});
    RewriteRenders(Rewrite(lines, a, {}), b, {});
  }

  // ------------------------------------------------------------------
  // Reading what was written
  // ------------------------------------------------------------------

  lemma SetFieldIsValid(s: Settings, k: Key, value: string)
    requires IsValid(s)
    ensures IsValid(SetField(s, k, value))
  {
  }

  lemma ReadLineIsValid(s: Settings, line: string)
    requires IsValid(s)
    ensures IsValid(ReadLine(s, line))
  {
    if Slot(line).Some? {
      SetFieldIsValid(s, Slot(line).value, Strip(line[IndexOf(line, '=') + 1..]));
    }
  }

  /** Reading keeps every value within its declared bounds. */
  lemma {:induction false} ReadLinesIsValid(s: Settings, lines: seq<string>)
    requires IsValid(s)
    ensures IsValid(ReadLines(s, lines))
    decreases |lines|
  {
    if lines != [] {
      ReadLineIsValid(s, lines[0]);
      ReadLinesIsValid(ReadLine(s, lines[0]), lines[1..]);
    }
  }

  /** Whatever the file holds, the settings read are within the declared bounds. */
  lemma ReadIsValid(text: string)
    ensures IsValid(Read(text))
  {
    ReadLinesIsValid(DEFAULTS, SplitLines(text));
  }

  lemma ReadLineMotdIsOneLine(s: Settings, line: string)
    requires IsOneLine(s.motd) && IsOneLine(line)
    ensures IsOneLine(ReadLine(s, line).motd)
  {
    if Slot(line).Some? {
      var value := line[IndexOf(line, '=') + 1..];
      assert IsOneLine(value);
      StripTrims(value);
      SetFieldMotdIsOneLine(s, Slot(line).value, Strip(value));
    }
  }

  lemma SetFieldMotdIsOneLine(s: Settings, k: Key, value: string)
    requires IsOneLine(s.motd) && IsOneLine(value)
    ensures IsOneLine(SetField(s, k, value).motd)
  {
    assert IsOneLine(DEFAULT_MOTD);
  }

  lemma {:induction false} ReadLinesMotdIsOneLine(s: Settings, lines: seq<string>)
    requires IsOneLine(s.motd) && AllOneLine(lines)
    ensures IsOneLine(ReadLines(s, lines).motd)
    decreases |lines|
  {
    if lines != [] {
      assert IsOneLine(lines[0]);
      ReadLineMotdIsOneLine(s, lines[0]);
      assert forall i :: 0 <= i < |lines[1..]| ==> lines[1..][i] == lines[i + 1];
      ReadLinesMotdIsOneLine(ReadLine(s, lines[0]), lines[1..]);
    }
  }

  /** `a` with the fields of the keys in `keys` taken from `b`. */
  ghost function Mix(a: Settings, b: Settings, keys: set<Key>): Settings {
    Settings(
      if Motd in keys then b.motd else a.motd,
      if GamemodeKey in keys then b.gamemode else a.gamemode,
      if DifficultyKey in keys then b.difficulty else a.difficulty,
      if MaxPlayers in keys then b.maxPlayers else a.maxPlayers,
      if WhiteList in keys then b.whitelist else a.whitelist,
      if Pvp in keys then b.pvp else a.pvp,
      if AllowFlight in keys then b.allowFlight else a.allowFlight,
      if ViewDistance in keys then b.viewDistance else a.viewDistance,
      if SimulationDistance in keys then b.simulationDistance else a.simulationDistance)
  }

  /** The message the reader makes of a written one-line message. */
  function Reread(motd: string): string {
    if Strip(motd) == "" then DEFAULT_MOTD else Strip(motd)
  }

  lemma {:induction false} FlattenOneLine(s: string)
    requires IsOneLine(s)
    ensures FlattenLine(s) == s
  {
    if s != "" {
      assert !IsBreak(s[0]);
      assert forall i :: 0 <= i < |s[1..]| ==> s[1..][i] == s[i + 1];
      FlattenOneLine(s[1..]);
    }
  }

  lemma GamemodeNames(g: Gamemode, h: Gamemode)
    ensures GamemodeName(g) == GamemodeName(h) ==> g == h
    ensures |GamemodeName(g)| > 1 && IsTrimmed(GamemodeName(g))
  {
  }

  lemma GamemodeNameIsLower(g: Gamemode)
    ensures NoCapitals(GamemodeName(g))
  {
  }

  lemma {:induction false} GamemodeFromFinds(j: nat, i: nat)
    requires i <= j < 4
    ensures GamemodeFrom(GamemodeName(GAMEMODES[j]), i) == Some(GAMEMODES[j])
    decreases j - i
  {
    GamemodeNames(GAMEMODES[j], GAMEMODES[i]);
    if i < j {
      GamemodeFromFinds(j, i + 1);
    }
  }

  lemma GamemodeReadsBack(g: Gamemode)
    ensures GamemodeNamed(Strip(GamemodeName(g))) == Some(g)
  {
    var j := if g.Survival? then 0 else if g.Creative? then 1 else if g.Adventure? then 2 else 3;
    GamemodeNames(g, g);
    StripTrims(GamemodeName(g));
    GamemodeNameIsLower(g);
    LowerIsIdentity(GamemodeName(g));
    GamemodeFromFinds(j, 0);
  }

  lemma DifficultyNames(d: Difficulty, e: Difficulty)
    ensures DifficultyName(d) == DifficultyName(e) ==> d == e
    ensures |DifficultyName(d)| > 1 && IsTrimmed(DifficultyName(d))
  {
  }

  lemma DifficultyNameIsLower(d: Difficulty)
    ensures NoCapitals(DifficultyName(d))
  {
  }

  lemma {:induction false} DifficultyFromFinds(j: nat, i: nat)
    requires i <= j < 4
    ensures DifficultyFrom(DifficultyName(DIFFICULTIES[j]), i) == Some(DIFFICULTIES[j])
    decreases j - i
  {
    DifficultyNames(DIFFICULTIES[j], DIFFICULTIES[i]);
    if i < j {
      DifficultyFromFinds(j, i + 1);
    }
  }

  lemma DifficultyReadsBack(d: Difficulty)
    ensures DifficultyNamed(Strip(DifficultyName(d))) == Some(d)
  {
    var j := if d.Peaceful? then 0 else if d.Easy? then 1 else if d.Normal? then 2 else 3;
    DifficultyNames(d, d);
    StripTrims(DifficultyName(d));
    DifficultyNameIsLower(d);
    LowerIsIdentity(DifficultyName(d));
    DifficultyFromFinds(j, 0);
  }

  lemma BoolReadsBack(b: bool)
    ensures ParseBool(Strip(BoolName(b))) == b
  {
    StripTrims(BoolName(b));
    LowerIsIdentity(BoolName(b));
  }

  lemma {:induction false} ShowLength(n: nat)
    ensures 1 <= |ShowNat(n)| <= n + 1
    decreases n
  {
    if n >= 10 {
      ShowLength(n / 10);
    }
  }

  lemma NumberReadsBack(n: int, low: int, high: int, before: int)
    requires 0 <= low <= n <= high <= 1000
    ensures ParseBounded(Strip(ShowInt(n)), low, high, before) == n
  {
    ParseShown(n, "");
    ShowLength(n);
    assert IsDigit(ShowNat(n)[0]) && IsDigit(ShowNat(n)[|ShowNat(n)| - 1]);
    StripTrims(ShowNat(n));
    ParseIntOfShow(n);
  }

  lemma SetFieldReadsBack(before: Settings, s: Settings, k: Key)
    requires IsValid(s) && IsOneLine(s.motd)
    ensures SetField(before, k, Strip(Serialized(s, k))) == Mix(before, s.(motd := Reread(s.motd)), {k})
  {
    match k
    case Motd =>
      FlattenOneLine(s.motd);
      StripTrims(s.motd);
    case GamemodeKey => GamemodeReadsBack(s.gamemode);
    case DifficultyKey => DifficultyReadsBack(s.difficulty);
    case MaxPlayers => NumberReadsBack(s.maxPlayers, 1, 1000, before.maxPlayers);
    case WhiteList => BoolReadsBack(s.whitelist);
    case Pvp => BoolReadsBack(s.pvp);
    case AllowFlight => BoolReadsBack(s.allowFlight);
    case ViewDistance => NumberReadsBack(s.viewDistance, 2, 32, before.viewDistance);
    case SimulationDistance => NumberReadsBack(s.simulationDistance, 2, 32, before.simulationDistance);
  }

  /** One written assignment, read: exactly its own field is set. */
  lemma ReadAssignment(before: Settings, s: Settings, k: Key)
    requires IsValid(s) && IsOneLine(s.motd)
    ensures ReadLine(before, Assignment(s, k)) == Mix(before, s.(motd := Reread(s.motd)), {k})
  {
    SlotOfAssignment(s, k);
    SetFieldReadsBack(before, s, k);
  }

  function KeySet(places: seq<Place>): set<Key> {
    set k | k in KeySequence(places)
  }

  lemma KeySetCons(p: Place, places: seq<Place>)
    ensures KeySet([p] + places) == (if p.Managed? then {p.key} else {}) + KeySet(places)
  {
    PlaceCons(p, places);
  }

  lemma ReadCons(before: Settings, p: Place, places: seq<Place>, s: Settings)
    ensures ReadLines(before, Render([p] + places, s)) == ReadLines(ReadLine(before, RenderPlace(p, s)), Render(places, s))
  {
    assert ([p] + places)[1..] == places;
    assert Render([p] + places, s)[1..] == Render(places, s);
  }

  lemma {:induction false} ReadRendered(before: Settings, s: Settings, places: seq<Place>)
    requires IsValid(s) && IsOneLine(s.motd) && IsLayout(places)
    ensures ReadLines(before, Render(places, s)) == Mix(before, s.(motd := Reread(s.motd)), KeySet(places))
    decreases |places|
  {
    if places != [] {
      var p, rest := places[0], places[1..];
      var written := s.(motd := Reread(s.motd));
      assert places == [p] + rest;
      KeySetCons(p, rest);
      ReadCons(before, p, rest, s);
      if p.Kept? {
        ReadKept(before, p.line);
        ReadRendered(before, s, rest);
      } else {
        ReadAssignment(before, s, p.key);
        ReadRendered(ReadLine(before, Assignment(s, p.key)), s, rest);
        MixAgain(before, written, {p.key}, KeySet(rest));
      }
    }
  }

  lemma ReadKept(before: Settings, line: string)
    requires Slot(line).None?
    ensures ReadLine(before, line) == before
  {
  }

  lemma MixAgain(a: Settings, b: Settings, first: set<Key>, second: set<Key>)
    ensures Mix(Mix(a, b, first), b, second) == Mix(a, b, first + second)
  {
  }

  lemma ReadOfWrite(text: string, s: Settings)
    requires IsValid(s) && IsOneLine(s.motd)
    ensures Read(Write(text, s)) == s.(motd := Reread(s.motd))
  {
    FlattenOneLine(s.motd);
    WrittenLines(text, s);
    var places := Normalized(Layout(SplitLines(text)), {});
    RewrittenLines(SplitLines(text), s);
    NormalizedPlaces(Layout(SplitLines(text)), {});
    ReadRendered(DEFAULTS, s, places);
  }

  /**
    * The round trip: whatever the file held before, reading it after a write gives exactly the settings
    * written, if and only if the message has no space around it and no line break in it.
    */
  lemma RoundTrip(text: string, s: Settings)
    requires IsValid(s)
    ensures Read(Write(text, s)) == s <==> IsTrimmed(s.motd) && IsOneLine(s.motd)
  {
    if IsOneLine(s.motd) {
      ReadOfWrite(text, s);
      RereadIsIdentity(s.motd);
    } else {
      ReadMotdIsOneLine(Write(text, s));
    }
  }

  lemma ReadMotdIsOneLine(text: string)
    ensures IsOneLine(Read(text).motd)
  {
    LinesHaveNoBreak(text);
    assert IsOneLine(DEFAULT_MOTD);
    ReadLinesMotdIsOneLine(DEFAULTS, SplitLines(text));
  }

  lemma RereadIsIdentity(motd: string)
    requires motd != ""
    ensures Reread(motd) == motd <==> IsTrimmed(motd)
  {
    StripTrims(motd);
    assert IsTrimmed(DEFAULT_MOTD);
  }

  // ------------------------------------------------------------------
  // The file
  // ------------------------------------------------------------------

  datatype PropertiesFile = Absent | LinkedFile | Unreadable | TextFile(text: string)

  datatype SettingsError = LinkRefused | CannotRead | CannotSave

  /** What the writer finds in the file; a missing file has no lines. */
  function ExistingText(file: PropertiesFile): string {
    if file.TextFile? then file.text else ""
  }

  /** The `server.properties` of one server. */
  class PropertiesStore {
    var file: PropertiesFile

    constructor (file: PropertiesFile)
      ensures this.file == file
    {
      this.file := file;
    }

    /** `read_server_properties` */
    method ReadServerProperties() returns (r: Result<Settings, SettingsError>)
      ensures r.Ok? <==> file.Absent? || file.TextFile?
      ensures file.LinkedFile? ==> r == Err(LinkRefused)
      ensures file.Absent? ==> r == Ok(DEFAULTS)
      ensures file.TextFile? ==> r == Ok(Read(file.text))
      ensures r.Ok? ==> IsValid(r.value)
    {
      if file.LinkedFile? {
        return Err(LinkRefused);
      }
      if file.Absent? {
        return Ok(DEFAULTS);
      }
      if file.Unreadable? {
        return Err(CannotRead);
      }
      var lines := SplitLines(file.text);
      var settings := DEFAULTS;
      for i := 0 to |lines|
        invariant ReadLines(settings, lines[i..]) == ReadLines(DEFAULTS, lines)
      {
        assert lines[i..][0] == lines[i] && lines[i..][1..] == lines[i + 1..];
        settings := ReadLine(settings, lines[i]);
      }
      assert lines[|lines|..] == [];
      ReadIsValid(file.text);
      r := Ok(settings);
    }

    /** `write_server_properties`; `fault` says that saving the temporary file or the rename fails. */
    method WriteServerProperties(settings: Settings, fault: bool) returns (r: Result<(), SettingsError>)
      requires IsValid(settings)
      modifies this
      ensures r.Ok? <==> (old(file).Absent? || old(file).TextFile?) && !fault
      ensures r.Err? ==> file == old(file)
      ensures r.Ok? ==> file == TextFile(Write(ExistingText(old(file)), settings))
    {
      if file.LinkedFile? {
        return Err(LinkRefused);
      }
      if file.Unreadable? {
        return Err(CannotRead);
      }
      var output := RewriteLines(SplitLines(ExistingText(file)), settings);
      if fault {
        return Err(CannotSave);
      }
      file := TextFile(JoinLines(output));
      r := Ok(());
    }
  }

  /** The loop of the writer over the existing lines, and then the one over the keys not met there. */
  method RewriteLines(existing: seq<string>, settings: Settings) returns (output: seq<string>)
    ensures output == Rewrite(existing, settings, {})
  {
    var written;
    output, written := RewriteExisting(existing, settings);
    output := AppendMissing(output, written, settings);
  }

  method RewriteExisting(existing: seq<string>, settings: Settings)
    returns (output: seq<string>, written: set<Key>)
    ensures output + Assignments(settings, Missing(KEYS, written)) == Rewrite(existing, settings, {})
  {
    output, written := [], {};
    for i := 0 to |existing|
      invariant output + Rewrite(existing[i..], settings, written) == Rewrite(existing, settings, {})
    {
      RewriteStep(existing[i..], settings, written, output);
      assert existing[i..][1..] == existing[i + 1..];
      match Slot(existing[i])
      case None =>
        output := output + [existing[i]];
      case Some(k) =>
        if k !in written {
          output := output + [Assignment(settings, k)];
          written := written + {k};
        }
    }
    assert existing[|existing|..] == [];
  }

  lemma RewriteStep(lines: seq<string>, s: Settings, written: set<Key>, output: seq<string>)
    requires lines != []
    ensures output + Rewrite(lines, s, written) ==
              match Slot(lines[0])
              case None => output + [lines[0]] + Rewrite(lines[1..], s, written)
              case Some(k) =>
                if k in written then output + Rewrite(lines[1..], s, written)
                else output + [Assignment(s, k)] + Rewrite(lines[1..], s, written + {k})
  {
  }

  method AppendMissing(before: seq<string>, written: set<Key>, settings: Settings) returns (output: seq<string>)
    ensures output == before + Assignments(settings, Missing(KEYS, written))
  {
    output := before;
    for i := 0 to |KEYS|
      invariant output + Assignments(settings, Missing(KEYS[i..], written))
                == before + Assignments(settings, Missing(KEYS, written))
    {
      MissingStep(KEYS[i..], settings, written, output);
      assert KEYS[i..][1..] == KEYS[i + 1..];
      if KEYS[i] !in written {
        output := output + [Assignment(settings, KEYS[i])];
      }
    }
    assert KEYS[|KEYS|..] == [] && output + [] == output;
  }

  lemma MissingStep(keys: seq<Key>, s: Settings, written: set<Key>, output: seq<string>)
    requires keys != []
    ensures output + Assignments(s, Missing(keys, written)) ==
              if keys[0] in written then output + Assignments(s, Missing(keys[1..], written))
              else output + [Assignment(s, keys[0])] + Assignments(s, Missing(keys[1..], written))
  {
    var rest := Missing(keys[1..], written);
    assert ([keys[0]] + rest)[1..] == rest && [] + rest == rest;
  }
}

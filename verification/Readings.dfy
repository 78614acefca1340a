/**
  * What `server.properties` means to the reader, line by line and for files the panel did not write, and where the
  * writer puts its lines.
  */
module Readings {
  import opened Common
  import opened Sequences
  import opened Text
  import opened Properties
  import R = Rewrites

  // ------------------------------------------------------------------
  // One assignment
  // ------------------------------------------------------------------

  /** The word for a mode, in any case, or its old number. */
  predicate SaysGamemode(value: string, g: Gamemode) {
    match g
    case Survival => IsWord(value, "survival") || value == "0"
    case Creative => IsWord(value, "creative") || value == "1"
    case Adventure => IsWord(value, "adventure") || value == "2"
    case Spectator => IsWord(value, "spectator") || value == "3"
  }

  predicate SaysDifficulty(value: string, d: Difficulty) {
    match d
    case Peaceful => IsWord(value, "peaceful") || value == "0"
    case Easy => IsWord(value, "easy") || value == "1"
    case Normal => IsWord(value, "normal") || value == "2"
    case Hard => IsWord(value, "hard") || value == "3"
  }

  /** The number in the value if it is one within the bounds, and otherwise what was there before. */
  predicate IsBounded(value: string, low: int, high: int, before: int, after: int) {
    match ParseInt(value)
    case Some(n) => after == if low <= n <= high then n else before
    case None => after == before
  }

  predicate SameGamemode(value: string, before: Gamemode, after: Gamemode) {
    SaysGamemode(value, after) || (after == before && forall g :: !SaysGamemode(value, g))
  }

  predicate SameDifficulty(value: string, before: Difficulty, after: Difficulty) {
    SaysDifficulty(value, after) || (after == before && forall d :: !SaysDifficulty(value, d))
  }

  /** All settings but that of `k` are the same. */
  predicate SameBut(k: Key, a: Settings, b: Settings) {
    && (k == Motd || a.motd == b.motd)
    && (k == GamemodeKey || a.gamemode == b.gamemode)
    && (k == DifficultyKey || a.difficulty == b.difficulty)
    && (k == MaxPlayers || a.maxPlayers == b.maxPlayers)
    && (k == WhiteList || a.whitelist == b.whitelist)
    && (k == Pvp || a.pvp == b.pvp)
    && (k == AllowFlight || a.allowFlight == b.allowFlight)
    && (k == ViewDistance || a.viewDistance == b.viewDistance)
    && (k == SimulationDistance || a.simulationDistance == b.simulationDistance)
  }

  /** How a value, without the spaces around it, changes the setting of its key. */
  predicate IsAssigned(k: Key, value: string, before: Settings, after: Settings) {
    && SameBut(k, before, after)
    && match k
       case Motd =>
         after.motd == if value == "" then "A Minecraft Server" else if |value| <= 100 then value else value[..100]
       case GamemodeKey => SameGamemode(value, before.gamemode, after.gamemode)
       case DifficultyKey => SameDifficulty(value, before.difficulty, after.difficulty)
       case MaxPlayers => IsBounded(value, 1, 1000, before.maxPlayers, after.maxPlayers)
       case WhiteList => after.whitelist == IsWord(value, "true")
       case Pvp => after.pvp == IsWord(value, "true")
       case AllowFlight => after.allowFlight == IsWord(value, "true")
       case ViewDistance => IsBounded(value, 2, 32, before.viewDistance, after.viewDistance)
       case SimulationDistance => IsBounded(value, 2, 32, before.simulationDistance, after.simulationDistance)
  }

  lemma LegacyDigits()
    ensures LegacyDigit(0) == "0" && LegacyDigit(1) == "1" && LegacyDigit(2) == "2" && LegacyDigit(3) == "3"
  {
  }

  lemma GamemodeWord(value: string, g: Gamemode, i: nat)
    requires i < 4 && GAMEMODES[i] == g
    ensures Lower(value) == LegacyDigit(i) || Lower(value) == GamemodeName(g) <==> SaysGamemode(value, g)
  {
    GamemodeNameIsLower(g);
    LowerMeans(value, GamemodeName(g));
    LowerMeans(value, LegacyDigit(i));
    LegacyDigits();
  }

  lemma DifficultyWord(value: string, d: Difficulty, i: nat)
    requires i < 4 && DIFFICULTIES[i] == d
    ensures Lower(value) == LegacyDigit(i) || Lower(value) == DifficultyName(d) <==> SaysDifficulty(value, d)
  {
    DifficultyNameIsLower(d);
    LowerMeans(value, DifficultyName(d));
    LowerMeans(value, LegacyDigit(i));
    LegacyDigits();
  }

  lemma {:induction false} GamemodeFromMeans(value: string, i: nat)
    requires i <= 4
    ensures var r := GamemodeFrom(Lower(value), i);
            && (r.Some? ==> SaysGamemode(value, r.value))
            && (r.None? ==> forall j :: i <= j < 4 ==> !SaysGamemode(value, GAMEMODES[j]))
    decreases 4 - i
  {
    if i < 4 {
      GamemodeWord(value, GAMEMODES[i], i);
      GamemodeFromMeans(value, i + 1);
    }
  }

  lemma {:induction false} DifficultyFromMeans(value: string, i: nat)
    requires i <= 4
    ensures var r := DifficultyFrom(Lower(value), i);
            && (r.Some? ==> SaysDifficulty(value, r.value))
            && (r.None? ==> forall j :: i <= j < 4 ==> !SaysDifficulty(value, DIFFICULTIES[j]))
    decreases 4 - i
  {
    if i < 4 {
      DifficultyWord(value, DIFFICULTIES[i], i);
      DifficultyFromMeans(value, i + 1);
    }
  }

  lemma GamemodeReads(before: Settings, value: string)
    ensures SameGamemode(value, before.gamemode, SetField(before, GamemodeKey, value).gamemode)
  {
    GamemodeFromMeans(value, 0);
    forall g | GamemodeNamed(value).None? ensures !SaysGamemode(value, g) {
      assert g == GAMEMODES[match g case Survival => 0 case Creative => 1 case Adventure => 2 case Spectator => 3];
    }
  }

  lemma DifficultyReads(before: Settings, value: string)
    ensures SameDifficulty(value, before.difficulty, SetField(before, DifficultyKey, value).difficulty)
  {
    DifficultyFromMeans(value, 0);
    forall d | DifficultyNamed(value).None? ensures !SaysDifficulty(value, d) {
      assert d == DIFFICULTIES[match d case Peaceful => 0 case Easy => 1 case Normal => 2 case Hard => 3];
    }
  }

  lemma BoolReads(value: string)
    requires IsTrimmed(value)
    ensures ParseBool(value) == IsWord(value, "true")
  {
    StripTrims(value);
    LowerMeans(value, "true");
  }

  /** Whatever the value says, in whatever case, within the bounds or not. */
  lemma FieldIsAssigned(before: Settings, k: Key, value: string)
    requires IsTrimmed(value)
    ensures IsAssigned(k, value, before, SetField(before, k, value))
  {
    match k
    case GamemodeKey => GamemodeReads(before, value);
    case DifficultyKey => DifficultyReads(before, value);
    case WhiteList => BoolReads(value);
    case Pvp => BoolReads(value);
    case AllowFlight => BoolReads(value);
    case _ =>
  }

  // ------------------------------------------------------------------
  // One line
  // ------------------------------------------------------------------

  lemma {:induction false} StripLeftFront(left: string, rest: string)
    requires StripLeft(left) != ""
    ensures StripLeft(left + rest) == StripLeft(left) + rest
  {
    assert (left + rest)[0] == left[0] && (left + rest)[1..] == left[1..] + rest;
    if IsSpace(left[0]) {
      StripLeftFront(left[1..], rest);
    }
  }

  lemma FirstOfLine(left: string, rest: string)
    requires Strip(left) != ""
    ensures Strip(left + rest) != "" && Strip(left + rest)[0] == Strip(left)[0]
  {
    StripLeftShape(left);
    StripRightShape(StripLeft(left));
    StripLeftFront(left, rest);
    StripRightKeepsFront(StripLeft(left));
    StripRightKeepsFront(StripLeft(left) + rest);
  }

  lemma AssignsTo(left: string, k: Key, right: string)
    requires '=' !in left && Strip(left) == KeyName(k)
    ensures
      var line := left + "=" + right;
      Slot(line) == Some(k) && line[IndexOf(line, '=') + 1..] == right && !IsCommentOrBlank(line)
  {
    var line := left + "=" + right;
    assert line == left + ['='] + right && line == left + ("=" + right);
    IndexOfAfter(left, '=', right);
    assert line[..|left|] == left && line[|left| + 1..] == right;
    KeyNameIsKnown(k);
    KeyNameShape(k);
    FirstOfLine(left, "=" + right);
  }

  /** A line with the name of a setting before its first equals sign, spaces aside, assigns to it what stands after. */
  lemma AssignmentReads(before: Settings, left: string, k: Key, right: string)
    requires '=' !in left && Strip(left) == KeyName(k)
    ensures IsAssigned(k, Strip(right), before, ReadLine(before, left + "=" + right))
  {
    AssignsTo(left, k, right);
    StripTrims(right);
    FieldIsAssigned(before, k, Strip(right));
    assert ReadLine(before, left + "=" + right) == SetField(before, k, Strip(right));
  }

  lemma {:induction false} NotAmong(s: string, keys: seq<Key>)
    requires forall k :: k in keys ==> s != KeyName(k)
    ensures KeyAmong(s, keys).None?
  {
    if keys != [] {
      assert keys[0] in keys;
      NotAmong(s, keys[1..]);
    }
  }

  /** Any other line, with another name or with no equals sign, is passed over. */
  lemma OthersArePassedOver(before: Settings, left: string, right: string)
    requires '=' !in left
    ensures ReadLine(before, left) == before
    ensures (forall k :: Strip(left) != KeyName(k)) ==> ReadLine(before, left + "=" + right) == before
  {
    if forall k :: Strip(left) != KeyName(k) {
      var line := left + "=" + right;
      assert line == left + ['='] + right;
      IndexOfAfter(left, '=', right);
      assert line[..|left|] == left;
      NotAmong(Strip(left), KEYS);
    }
  }

  // ------------------------------------------------------------------
  // All lines
  // ------------------------------------------------------------------

  /** Without any line, and for whatever no line sets, the defaults hold. */
  lemma NothingReads()
    ensures Read("") == Settings("A Minecraft Server", Survival, Easy, 20, false, true, false, 10, 10)
  {
    assert SplitLines("") == [];
  }

  /** Lines are read in order, each over what the ones before it left. */
  lemma {:induction false} ReadsInOrder(before: Settings, lines: seq<string>, last: string)
    ensures ReadLines(before, lines + [last]) == ReadLine(ReadLines(before, lines), last)
    decreases |lines|
  {
    var whole := lines + [last];
    if lines == [] {
      assert whole == [last] && whole[1..] == [];
    } else {
      assert whole[0] == lines[0] && whole[1..] == lines[1..] + [last];
      ReadsInOrder(ReadLine(before, lines[0]), lines[1..], last);
    }
  }

  /** The setting of `k` is the same. */
  predicate SameAt(k: Key, a: Settings, b: Settings) {
    match k
    case Motd => a.motd == b.motd
    case GamemodeKey => a.gamemode == b.gamemode
    case DifficultyKey => a.difficulty == b.difficulty
    case MaxPlayers => a.maxPlayers == b.maxPlayers
    case WhiteList => a.whitelist == b.whitelist
    case Pvp => a.pvp == b.pvp
    case AllowFlight => a.allowFlight == b.allowFlight
    case ViewDistance => a.viewDistance == b.viewDistance
    case SimulationDistance => a.simulationDistance == b.simulationDistance
  }

  lemma FieldKeepsOthers(before: Settings, j: Key, value: string, k: Key)
    requires j != k
    ensures SameAt(k, before, SetField(before, j, value))
  {
  }

  lemma LineKeepsOthers(before: Settings, line: string, k: Key)
    requires Slot(line) != Some(k)
    ensures SameAt(k, before, ReadLine(before, line))
  {
    if Slot(line).Some? {
      FieldKeepsOthers(before, Slot(line).value, Strip(line[IndexOf(line, '=') + 1..]), k);
    }
  }

  lemma SameAtBoth(k: Key, a: Settings, b: Settings, c: Settings)
    requires SameAt(k, a, b) && SameAt(k, b, c)
    ensures SameAt(k, a, c)
  {
  }

  /** Of several lines for one setting only the last counts: later lines for other settings leave it alone. */
  lemma {:induction false} LaterLinesKeep(before: Settings, lines: seq<string>, k: Key)
    requires forall line :: line in lines ==> Slot(line) != Some(k)
    ensures SameAt(k, before, ReadLines(before, lines))
    decreases |lines|
  {
    if lines != [] {
      var next := ReadLine(before, lines[0]);
      LineKeepsOthers(before, lines[0], k);
      LaterLinesKeep(next, lines[1..], k);
      SameAtBoth(k, before, next, ReadLines(next, lines[1..]));
    }
  }

  // ------------------------------------------------------------------
  // What the writer makes of a message
  // ------------------------------------------------------------------

  /** Carriage returns and line feeds, and they alone, become spaces. */
  lemma {:induction false} FlattenMeans(motd: string)
    ensures |FlattenLine(motd)| == |motd|
    ensures forall i :: 0 <= i < |motd| ==>
              FlattenLine(motd)[i] == if motd[i] == '\r' || motd[i] == '\n' then ' ' else motd[i]
  {
    if motd != "" {
      FlattenMeans(motd[1..]);
      assert forall i :: 0 < i < |motd| ==> FlattenLine(motd)[i] == FlattenLine(motd[1..])[i - 1];
    }
  }

  /**
    * A message with no other breaks than those comes back with spaces in their place, and without the spaces around
    * it; one of spaces only comes back as the default. The other settings come back as they are.
    */
  lemma FlattenedComesBack(text: string, s: Settings)
    requires IsValid(s) && IsOneLine(FlattenLine(s.motd))
    ensures
      var back := Read(Write(text, s));
      && SameBut(Motd, s, back)
      && back.motd == if Strip(FlattenLine(s.motd)) == "" then "A Minecraft Server" else Strip(FlattenLine(s.motd))
  {
    var flat := s.(motd := FlattenLine(s.motd));
    FlattenMeans(s.motd);
    FlattenOneLine(flat.motd);
    SameText(text, s, flat);
    ReadOfWrite(text, flat);
  }

  lemma {:induction false} SameAssignments(s: Settings, flat: Settings, keys: seq<Key>)
    requires flat == s.(motd := FlattenLine(s.motd)) && FlattenLine(flat.motd) == flat.motd
    ensures Assignments(s, keys) == Assignments(flat, keys)
  {
    if keys != [] {
      SameAssignments(s, flat, keys[1..]);
    }
  }

  lemma {:induction false} SameRewrite(lines: seq<string>, s: Settings, flat: Settings, written: set<Key>)
    requires flat == s.(motd := FlattenLine(s.motd)) && FlattenLine(flat.motd) == flat.motd
    ensures Rewrite(lines, s, written) == Rewrite(lines, flat, written)
    decreases |lines|
  {
    if lines == [] {
      SameAssignments(s, flat, Missing(KEYS, written));
    } else {
      var slot := Slot(lines[0]);
      SameRewrite(lines[1..], s, flat, written);
      if slot.Some? {
        SameRewrite(lines[1..], s, flat, written + {slot.value});
      }
    }
  }

  /** What is written does not depend on which of the two breaks the message had. */
  lemma SameText(text: string, s: Settings, flat: Settings)
    requires flat == s.(motd := FlattenLine(s.motd)) && FlattenLine(flat.motd) == flat.motd
    ensures Write(text, s) == Write(text, flat)
  {
    SameRewrite(SplitLines(text), s, flat, {});
  }

  // ------------------------------------------------------------------
  // Where the writer puts its lines
  // ------------------------------------------------------------------

  /** The lines in their order, without those for settings that have been written or that came before. */
  function FirstOnly(places: seq<Place>, written: set<Key>): seq<Place> {
    if places == [] then []
    else
      var front, last := places[..|places| - 1], places[|places| - 1];
      FirstOnly(front, written) + (if last.Managed? && (last.key in written || last in front) then [] else [last])
  }

  lemma {:induction false} FirstOnlyCons(p: Place, places: seq<Place>, written: set<Key>)
    ensures FirstOnly([p] + places, written) ==
            if p.Managed? && p.key in written then FirstOnly(places, written)
            else [p] + FirstOnly(places, if p.Managed? then written + {p.key} else written)
    decreases |places|
  {
    var whole := [p] + places;
    if places == [] {
      assert whole[..0] == [] && whole[0] == p;
    } else {
      var front, last := places[..|places| - 1], places[|places| - 1];
      assert whole[..|whole| - 1] == [p] + front && whole[|whole| - 1] == last;
      FirstOnlyCons(p, front, written);
      if p.Managed? && p.key in written {
        assert last in [p] + front <==> last == p || last in front;
      }
    }
  }

  /** The settings that no line is for, in the order of the form. */
  function Absent(keys: seq<Key>, places: seq<Place>): seq<Key> {
    if keys == [] then []
    else
      var front, last := keys[..|keys| - 1], keys[|keys| - 1];
      Absent(front, places) + (if Managed(last) in places then [] else [last])
  }

  lemma {:induction false} MissingSnoc(keys: seq<Key>, last: Key, written: set<Key>)
    ensures Missing(keys + [last], written) == Missing(keys, written) + (if last in written then [] else [last])
  {
    if keys == [] {
      assert [last][1..] == [];
    } else {
      assert (keys + [last])[1..] == keys[1..] + [last];
      MissingSnoc(keys[1..], last, written);
    }
  }

  lemma {:induction false} AbsentIsMissing(keys: seq<Key>, places: seq<Place>, written: set<Key>)
    requires forall k :: k in written <==> Managed(k) in places
    ensures Absent(keys, places) == Missing(keys, written)
  {
    if keys != [] {
      var front, last := keys[..|keys| - 1], keys[|keys| - 1];
      AbsentIsMissing(front, places, written);
      MissingSnoc(front, last, written);
      assert keys == front + [last];
    }
  }

  function ManagedIn(places: seq<Place>): set<Key> {
    set p | p in places && p.Managed? :: p.key
  }

  lemma {:induction false} NormalizedInTwo(places: seq<Place>, written: set<Key>)
    ensures Normalized(places, written) ==
            FirstOnly(places, written) + Managers(Missing(KEYS, written + ManagedIn(places)))
    decreases |places|
  {
    if places == [] {
      assert written + ManagedIn(places) == written;
    } else {
      var p, rest := places[0], places[1..];
      assert places == [p] + rest;
      FirstOnlyCons(p, rest, written);
      var more := if p.Managed? then written + {p.key} else written;
      NormalizedInTwo(rest, more);
      assert more + ManagedIn(rest) == written + ManagedIn(places);
      if p.Managed? && p.key in written {
        assert more == written;
      } else {
        Regroup([p], FirstOnly(rest, more), Managers(Missing(KEYS, more + ManagedIn(rest))));
      }
    }
  }

  /**
    * Where each line of a rewritten file is: the lines the panel does not manage and the first line of each setting
    * stay in their order, later lines of a setting go, and the settings without a line follow in the order of the
    * form.
    */
  lemma LinesStayInPlace(text: string, s: Settings)
    requires IsValid(s) && IsOneLine(FlattenLine(s.motd))
    ensures
      var before, after := Layout(SplitLines(text)), Layout(SplitLines(Write(text, s)));
      var form :=
        [Motd, GamemodeKey, DifficultyKey, MaxPlayers, WhiteList, Pvp, AllowFlight, ViewDistance, SimulationDistance];
      var kept, added := FirstOnly(before, {}), Absent(form, before);
      && |after| == |kept| + |added| && after[..|kept|] == kept
      && forall i :: 0 <= i < |added| ==> after[|kept| + i] == Managed(added[i])
  {
    var before := Layout(SplitLines(text));
    WriteKeepsLayout(text, s);
    NormalizedInTwo(before, {});
    assert {} + ManagedIn(before) == ManagedIn(before);
    AbsentIsMissing(KEYS, before, ManagedIn(before));
    R.ManagersAt(Absent(KEYS, before));
  }
}

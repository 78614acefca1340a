/** When a second write of `server.properties` wipes out the first: exactly which messages spoil it. */
module Rewrites {
  import opened Common
  import opened Sequences
  import opened Text
  import opened Properties

  /** The message line as it is read back: the lines after the first are what the message broke into. */
  function MessagePieces(s: Settings): seq<string> {
    SplitLines(Assignment(s, Motd) + "\n")
  }

  function MessageTail(s: Settings): seq<string> {
    if MessagePieces(s) == [] then [] else MessagePieces(s)[1..]
  }

  lemma {:induction false} CleanPrefix(p: string, s: string, line: string)
    requires IsOneLine(p)
    ensures LinesFrom(p + s, line) == LinesFrom(s, line + p)
  {
    if p == "" {
      assert p + s == s && line + p == line;
    } else {
      assert (p + s)[0] == p[0] && (p + s)[1..] == p[1..] + s;
      assert line + [p[0]] + p[1..] == line + p;
      CleanPrefix(p[1..], s, line + [p[0]]);
    }
  }

  lemma {:induction false} FirstPiece(s: string, line: string)
    requires line != ""
    ensures LinesFrom(s, line) != [] && line <= LinesFrom(s, line)[0]
    decreases |s|
  {
    if s != "" && !IsBreak(s[0]) {
      FirstPiece(s[1..], line + [s[0]]);
    }
  }

  /** However the message breaks, its first piece is an assignment to the message. */
  lemma MessageComesFirst(s: Settings)
    ensures MessagePieces(s) != [] && Slot(MessagePieces(s)[0]) == Some(Motd)
  {
    var name := KeyName(Motd);
    var value := Serialized(s, Motd) + "\n";
    assert Assignment(s, Motd) + "\n" == name + "=" + value;
    KeyNameIsOneLine(Motd);
    assert IsOneLine(name + "=");
    CleanPrefix(name + "=", value, "");
    assert "" + (name + "=") == name + "=";
    FirstPiece(value, name + "=");
    var first := MessagePieces(s)[0];
    assert first == name + ['='] + first[|name| + 1..];
    KeyNameHasNoEquals(Motd);
    IndexOfAfter(name, '=', first[|name| + 1..]);
    assert first[..|name|] == name;
    KeyNameShape(Motd);
    StripTrims(name);
    KeyNameIsKnown(Motd);
  }

  // ------------------------------------------------------------------
  // Layouts in pieces
  // ------------------------------------------------------------------

  lemma {:induction false} LayoutConcat(a: seq<string>, b: seq<string>)
    ensures Layout(a + b) == Layout(a) + Layout(b)
  {
    if a == [] {
      assert a + b == b;
    } else {
      assert (a + b)[1..] == a[1..] + b;
      LayoutConcat(a[1..], b);
    }
  }

  lemma {:induction false} RenderConcat(a: seq<Place>, b: seq<Place>, s: Settings)
    ensures Render(a + b, s) == Render(a, s) + Render(b, s)
  {
    if a == [] {
      assert a + b == b;
    } else {
      assert (a + b)[1..] == a[1..] + b;
      RenderConcat(a[1..], b, s);
    }
  }

  lemma {:induction false} PlacesConcat(a: seq<Place>, b: seq<Place>)
    ensures KeySequence(a + b) == KeySequence(a) + KeySequence(b)
    ensures KeptLines(a + b) == KeptLines(a) + KeptLines(b)
  {
    if a == [] {
      assert a + b == b;
    } else {
      var first, rest := a[0], a[1..];
      assert a == [first] + rest && a + b == [first] + (rest + b);
      PlacesConcat(rest, b);
      KeysGlue(first, rest, b);
      KeptGlue(first, rest, b);
    }
  }

  lemma KeysGlue(first: Place, rest: seq<Place>, b: seq<Place>)
    requires KeySequence(rest + b) == KeySequence(rest) + KeySequence(b)
    ensures KeySequence([first] + (rest + b)) == KeySequence([first] + rest) + KeySequence(b)
  {
    PlaceCons(first, rest);
    PlaceCons(first, rest + b);
    Regroup(if first.Managed? then [first.key] else [], KeySequence(rest), KeySequence(b));
  }

  lemma KeptGlue(first: Place, rest: seq<Place>, b: seq<Place>)
    requires KeptLines(rest + b) == KeptLines(rest) + KeptLines(b)
    ensures KeptLines([first] + (rest + b)) == KeptLines([first] + rest) + KeptLines(b)
  {
    PlaceCons(first, rest);
    PlaceCons(first, rest + b);
    Regroup(if first.Kept? then [first.line] else [], KeptLines(rest), KeptLines(b));
  }

  /** Kept lines that are single lines. */
  ghost predicate IsClean(places: seq<Place>) {
    forall p :: p in places && p.Kept? ==> IsOneLine(p.line)
  }

  lemma {:induction false} LayoutIsClean(lines: seq<string>)
    requires AllOneLine(lines)
    ensures IsClean(Layout(lines))
  {
    if lines != [] {
      assert IsOneLine(lines[0]);
      assert forall i :: 0 <= i < |lines[1..]| ==> lines[1..][i] == lines[i + 1];
      LayoutIsClean(lines[1..]);
    }
  }

  lemma {:induction false} NormalizedIsClean(places: seq<Place>, written: set<Key>)
    requires IsClean(places)
    ensures IsClean(Normalized(places, written))
    decreases |places|
  {
    if places == [] {
      ManagersAreManaged(Missing(KEYS, written));
    } else {
      assert places == [places[0]] + places[1..];
      match places[0]
      case Kept(_) => NormalizedIsClean(places[1..], written);
      case Managed(k) => NormalizedIsClean(places[1..], if k in written then written else written + {k});
    }
  }

  lemma SameElsewhere(s: Settings, t: Settings, k: Key)
    requires k != Motd && t == s.(motd := t.motd)
    ensures Assignment(s, k) == Assignment(t, k)
  {
  }

  lemma OtherAssignmentIsLine(s: Settings, k: Key)
    requires IsValid(s) && k != Motd
    ensures IsOneLine(Assignment(s, k))
  {
    var t := s.(motd := "-");
    SameElsewhere(s, t, k);
    FlattenOneLine("-");
    AssignmentIsLine(t, k);
  }

  lemma {:induction false} RenderIsLines(places: seq<Place>, s: Settings)
    requires IsValid(s) && IsClean(places) && Motd !in KeySequence(places)
    ensures AllOneLine(Render(places, s))
  {
    if places != [] {
      assert places == [places[0]] + places[1..];
      PlaceCons(places[0], places[1..]);
      RenderIsLines(places[1..], s);
      match places[0]
      case Kept(line) => assert places[0] in places;
      case Managed(k) => OtherAssignmentIsLine(s, k);
    }
  }

  /** The one place of the message in a layout that has each key once. */
  lemma {:induction false} AtMessage(places: seq<Place>) returns (before: seq<Place>, after: seq<Place>)
    requires Distinct(KeySequence(places)) && Motd in KeySequence(places)
    ensures places == before + [Managed(Motd)] + after
    ensures Motd !in KeySequence(before) && Motd !in KeySequence(after)
    decreases |places|
  {
    var rest := places[1..];
    assert places == [places[0]] + rest;
    PlaceCons(places[0], rest);
    if places[0] == Managed(Motd) {
      DistinctTail(KeySequence(places));
      before, after := [], rest;
    } else {
      if places[0].Managed? {
        DistinctTail(KeySequence(places));
        assert KeySequence(places)[1..] == KeySequence(rest);
      } else {
        assert KeySequence(places) == KeySequence(rest);
      }
      before, after := AtMessage(rest);
      PlaceCons(places[0], before);
      before := [places[0]] + before;
    }
  }

  /** Reading a written file back: its layout, with what the message broke into right after the message. */
  lemma LayoutOfWritten(text: string, s: Settings) returns (before: seq<Place>, after: seq<Place>)
    requires IsValid(s)
    ensures Normalized(Layout(SplitLines(text)), {}) == before + [Managed(Motd)] + after
    ensures Layout(SplitLines(Write(text, s))) == before + [Managed(Motd)] + Layout(MessageTail(s)) + after
  {
    before, after := NormalizedInThree(SplitLines(text), text);
    SplitOfWritten(text, s, before, after);
    LayoutInThree(before, MessagePieces(s), after, s);
    LayoutOfMessage(s);
    FourParts(before, [Managed(Motd)], Layout(MessageTail(s)), after);
  }

  lemma FourParts<T>(a: seq<T>, b: seq<T>, c: seq<T>, d: seq<T>)
    ensures a + (b + c) + d == a + b + c + d
  {
  }

  lemma LayoutOfMessage(s: Settings)
    ensures Layout(MessagePieces(s)) == [Managed(Motd)] + Layout(MessageTail(s))
  {
    MessageComesFirst(s);
  }

  lemma SplitOfWritten(text: string, s: Settings, before: seq<Place>, after: seq<Place>)
    requires IsValid(s) && IsClean(before) && IsClean(after)
    requires Normalized(Layout(SplitLines(text)), {}) == before + [Managed(Motd)] + after
    requires Motd !in KeySequence(before) && Motd !in KeySequence(after)
    ensures SplitLines(Write(text, s)) == Render(before, s) + MessagePieces(s) + Render(after, s)
  {
    RewrittenLines(SplitLines(text), s);
    RenderInThree(before, after, s);
    RenderIsLines(before, s);
    RenderIsLines(after, s);
    SplitAround(Render(before, s), Assignment(s, Motd), Render(after, s));
  }

  lemma NormalizedInThree(lines: seq<string>, text: string) returns (before: seq<Place>, after: seq<Place>)
    requires lines == SplitLines(text)
    ensures Normalized(Layout(lines), {}) == before + [Managed(Motd)] + after
    ensures IsLayout(before) && IsLayout(after) && IsClean(before) && IsClean(after)
    ensures Motd !in KeySequence(before) && Motd !in KeySequence(after)
  {
    var places := Normalized(Layout(lines), {});
    LayoutOfLines(lines);
    NormalizedIsLayout(Layout(lines), {});
    LinesHaveNoBreak(text);
    LayoutIsClean(lines);
    NormalizedIsClean(Layout(lines), {});
    NormalizedPlaces(Layout(lines), {});
    before, after := AtMessage(places);
    assert forall p :: p in before || p in after ==> p in places;
  }

  lemma LayoutInThree(before: seq<Place>, pieces: seq<string>, after: seq<Place>, s: Settings)
    requires IsLayout(before) && IsLayout(after)
    ensures Layout(Render(before, s) + pieces + Render(after, s)) == before + Layout(pieces) + after
  {
    LayoutConcat(Render(before, s) + pieces, Render(after, s));
    LayoutConcat(Render(before, s), pieces);
    LayoutOfRender(before, s);
    LayoutOfRender(after, s);
  }

  lemma RenderInThree(before: seq<Place>, after: seq<Place>, s: Settings)
    ensures Render(before + [Managed(Motd)] + after, s) ==
            Render(before, s) + [Assignment(s, Motd)] + Render(after, s)
  {
    RenderConcat(before + [Managed(Motd)], after, s);
    RenderConcat(before, [Managed(Motd)], s);
    assert Render([Managed(Motd)], s) == [Assignment(s, Motd)] by {
      assert [Managed(Motd)][1..] == [];
    }
  }

  // ------------------------------------------------------------------
  // The law, and exactly when it holds
  // ------------------------------------------------------------------

  /** Whatever the file held and whatever is written next, nothing of `a` is left. */
  ghost predicate LeavesNoTrace(a: Settings) {
    forall text: string, b: Settings {:trigger Write(Write(text, a), b)} ::
      IsValid(b) ==> Write(Write(text, a), b) == Write(text, b)
  }

  /** Everything the message breaks into assigns to the message again. */
  ghost predicate BreaksHarmlessly(a: Settings) {
    forall i :: 0 <= i < |MessageTail(a)| ==> Slot(MessageTail(a)[i]) == Some(Motd)
  }

  lemma {:induction false} SkipRepeats(repeats: seq<Place>, after: seq<Place>, written: set<Key>)
    requires Motd in written && forall p :: p in repeats ==> p == Managed(Motd)
    ensures Normalized(repeats + after, written) == Normalized(after, written)
    decreases |repeats|
  {
    if repeats == [] {
      assert repeats + after == after;
    } else {
      assert (repeats + after)[0] == repeats[0] && repeats[0] in repeats;
      assert forall p :: p in repeats[1..] ==> p in repeats;
      assert (repeats + after)[1..] == repeats[1..] + after;
      SkipRepeats(repeats[1..], after, written);
    }
  }

  lemma {:induction false} DropRepeats(before: seq<Place>, repeats: seq<Place>, after: seq<Place>, written: set<Key>)
    requires forall p :: p in repeats ==> p == Managed(Motd)
    ensures Normalized(before + [Managed(Motd)] + repeats + after, written) ==
            Normalized(before + [Managed(Motd)] + after, written)
    decreases |before|
  {
    var long, short := before + [Managed(Motd)] + repeats + after, before + [Managed(Motd)] + after;
    if before == [] {
      assert long[0] == short[0] == Managed(Motd);
      assert long[1..] == repeats + after && short[1..] == after;
      SkipRepeats(repeats, after, written + {Motd});
      if Motd in written {
        SkipRepeats(repeats, after, written);
      }
    } else {
      var rest := before[1..];
      assert long[0] == short[0] == before[0];
      assert long[1..] == rest + [Managed(Motd)] + repeats + after;
      assert short[1..] == rest + [Managed(Motd)] + after;
      DropRepeats(rest, repeats, after,
        if before[0].Managed? then written + {before[0].key} else written);
      if before[0].Managed? && before[0].key in written {
        assert written + {before[0].key} == written;
      }
    }
  }

  lemma {:induction false} LayoutAt(lines: seq<string>)
    ensures |Layout(lines)| == |lines| && forall i :: 0 <= i < |lines| ==> Layout(lines)[i] == PlaceOf(lines[i])
  {
    if lines != [] {
      LayoutAt(lines[1..]);
    }
  }

  lemma HarmlessLeavesNoTrace(a: Settings, text: string, b: Settings)
    requires IsValid(a) && BreaksHarmlessly(a)
    ensures Write(Write(text, a), b) == Write(text, b)
  {
    var before, after := LayoutOfWritten(text, a);
    var places := Normalized(Layout(SplitLines(text)), {});
    LayoutAt(MessageTail(a));
    DropRepeats(before, Layout(MessageTail(a)), after, {});
    NormalizedPlaces(Layout(SplitLines(text)), {});
    NormalizedAgain(places, {});
    RewriteRenders(SplitLines(text), b, {});
    RewriteRenders(SplitLines(Write(text, a)), b, {});
  }

  /** A file that assigns to the message first, to `k` last, and to the other keys in between. */
  ghost function Probe(k: Key): seq<Key> {
    [Motd] + Missing(KEYS, {Motd, k}) + [k]
  }

  lemma Flanked<T>(a: T, middle: seq<T>, b: T)
    requires Distinct(middle) && middle != [] && a != b && a !in middle && b !in middle
    ensures Distinct([a] + middle + [b]) && |[a] + middle + [b]| > 2 && ([a] + middle + [b])[1] == middle[0]
    ensures forall x :: x in [a] + middle + [b] <==> x == a || x in middle || x == b
  {
    DistinctConcat([a], middle);
    DistinctConcat([a] + middle, [b]);
  }

  lemma ProbeHasAll(k: Key)
    requires k != Motd
    ensures Distinct(Probe(k)) && (forall j: Key :: j in Probe(k)) && |Probe(k)| > 2 && Probe(k)[1] != k
  {
    var middle := Missing(KEYS, {Motd, k});
    ProbeMiddle(k);
    Flanked(Motd, middle, k);
    assert middle[0] in middle;
  }

  lemma ProbeMiddle(k: Key)
    ensures var middle := Missing(KEYS, {Motd, k});
            Distinct(middle) && middle != [] && forall j :: j in middle <==> j != Motd && j != k
  {
    AllKeys();
    MissingMembers(KEYS, {Motd, k});
    var middle := Missing(KEYS, {Motd, k});
    assert (if k == Pvp then WhiteList else Pvp) in middle;
  }

  lemma {:induction false} AssignmentsLayout(s: Settings, keys: seq<Key>)
    ensures Layout(Assignments(s, keys)) == Managers(keys)
  {
    if keys != [] {
      SlotOfAssignment(s, keys[0]);
      AssignmentsLayout(s, keys[1..]);
    }
  }

  lemma ProbeText(k: Key) returns (text: string)
    requires k != Motd
    ensures Layout(SplitLines(text)) == Managers(Probe(k))
    ensures Normalized(Managers(Probe(k)), {}) == Managers(Probe(k))
  {
    FlattenOneLine("-");
    var s := DEFAULTS.(motd := "-");
    AssignmentsAreLines(s, Probe(k));
    text := JoinLines(Assignments(s, Probe(k)));
    SplitJoin(Assignments(s, Probe(k)));
    AssignmentsLayout(s, Probe(k));
    ProbeHasAll(k);
    ManagersSequence(Probe(k));
    NormalizedAgain(Managers(Probe(k)), {});
  }

  /** After two writes the layout is the normalized layout of what the first one left. */
  lemma SameTextSameLayout(a: Settings, text: string)
    requires LeavesNoTrace(a)
    ensures Normalized(Layout(SplitLines(Write(text, a))), {}) == Normalized(Layout(SplitLines(text)), {})
  {
    var b := DEFAULTS.(motd := "-");
    FlattenOneLine("-");
    assert IsValid(b);
    assert Write(Write(text, a), b) == Write(text, b);
    WriteKeepsLayout(Write(text, a), b);
    WriteKeepsLayout(text, b);
  }

  /** On the probe, the layout after the first write is the probe's with the broken pieces put in. */
  lemma ProbeAfterWrite(a: Settings, k: Key) returns (rest: seq<Place>)
    requires IsValid(a) && k != Motd && LeavesNoTrace(a)
    ensures Managers(Probe(k)) == [Managed(Motd)] + rest
    ensures Normalized([Managed(Motd)] + Layout(MessageTail(a)) + rest, {}) == Managers(Probe(k))
  {
    var text := ProbeText(k);
    SameTextSameLayout(a, text);
    var before, after := LayoutOfWritten(text, a);
    ProbeHasAll(k);
    StartsWithMessage(Probe(k), before, after);
    rest := after;
    assert [] + [Managed(Motd)] + after == [Managed(Motd)] + after;
    assert [] + [Managed(Motd)] + Layout(MessageTail(a)) + after == [Managed(Motd)] + Layout(MessageTail(a)) + after;
  }

  /** Where each key comes once and the message first, nothing comes before the message. */
  lemma StartsWithMessage(keys: seq<Key>, before: seq<Place>, after: seq<Place>)
    requires keys != [] && keys[0] == Motd && Distinct(keys)
    requires Managers(keys) == before + [Managed(Motd)] + after
    ensures before == []
  {
    ManagersSequence(keys);
    PlacesConcat(before + [Managed(Motd)], after);
    PlacesConcat(before, [Managed(Motd)]);
    assert KeySequence([Managed(Motd)]) == [Motd] by {
      assert [Managed(Motd)][1..] == [];
    }
    assert keys == KeySequence(before) + [Motd] + KeySequence(after);
    assert keys[|KeySequence(before)|] == Motd;
    assert KeySequence(before) == [];
    assert KeptLines(before) == [];
    PlacesCount(before);
  }

  lemma {:induction false} PlacesCount(places: seq<Place>)
    ensures |places| == |KeySequence(places)| + |KeptLines(places)|
  {
    if places != [] {
      PlacesCount(places[1..]);
    }
  }

  /** No piece may be a line of its own, ... */
  lemma KeptPieceShows(a: Settings, i: nat)
    requires IsValid(a) && i < |MessageTail(a)| && Slot(MessageTail(a)[i]).None?
    ensures !LeavesNoTrace(a)
  {
    if LeavesNoTrace(a) {
      var pieces := Layout(MessageTail(a));
      var rest := ProbeAfterWrite(a, Pvp);
      NormalizedPlaces([Managed(Motd)] + pieces + rest, {});
      ManagersSequence(Probe(Pvp));
      PlacesConcat([Managed(Motd)] + pieces, rest);
      PlacesConcat([Managed(Motd)], pieces);
      LayoutAt(MessageTail(a));
      KeptLineIsKept(pieces, i);
      assert false;
    }
  }

  lemma {:induction false} KeptLineIsKept(places: seq<Place>, i: nat)
    requires i < |places| && places[i].Kept?
    ensures KeptLines(places) != []
  {
    if i > 0 {
      KeptLineIsKept(places[1..], i - 1);
    }
  }

  /** ... and none may assign to another key. */
  lemma OtherPieceShows(a: Settings, i: nat)
    requires IsValid(a) && i < |MessageTail(a)| && Slot(MessageTail(a)[i]).Some?
    requires Slot(MessageTail(a)[i]).value != Motd
    requires forall j :: 0 <= j < i ==> Slot(MessageTail(a)[j]) == Some(Motd)
    ensures !LeavesNoTrace(a)
  {
    if LeavesNoTrace(a) {
      var pieces := Layout(MessageTail(a));
      LayoutAt(MessageTail(a));
      var k := Slot(MessageTail(a)[i]).value;
      var rest := ProbeAfterWrite(a, k);
      OtherPieceMovesUp(pieces, i, k, rest);
      ProbeHasAll(k);
      ManagersAt(Probe(k));
      assert false;
    }
  }

  lemma {:induction false} ManagersAt(keys: seq<Key>)
    ensures |Managers(keys)| == |keys| && forall i :: 0 <= i < |keys| ==> Managers(keys)[i] == Managed(keys[i])
  {
    if keys != [] {
      ManagersAt(keys[1..]);
    }
  }

  lemma OtherPieceMovesUp(pieces: seq<Place>, i: nat, k: Key, rest: seq<Place>)
    requires i < |pieces| && k != Motd && pieces[i] == Managed(k)
    requires forall j :: 0 <= j < i ==> pieces[j] == Managed(Motd)
    ensures var n := Normalized([Managed(Motd)] + pieces + rest, {}); |n| > 1 && n[1] == Managed(k)
  {
    var places := [Managed(Motd)] + pieces + rest;
    assert places[0] == Managed(Motd) && places[1..] == pieces + rest;
    assert pieces + rest == pieces[..i] + (pieces[i..] + rest);
    assert {} + {Motd} == {Motd};
    SkipRepeats(pieces[..i], pieces[i..] + rest, {Motd});
    assert (pieces[i..] + rest)[0] == Managed(k);
  }

  /**
    * The last write wins, for every file and every second write, if and only if the first message breaks
    * into nothing but further assignments to the message: in particular if it does not break at all.
    */
  lemma TraceLaw(a: Settings)
    requires IsValid(a)
    ensures LeavesNoTrace(a) <==> BreaksHarmlessly(a)
  {
    if BreaksHarmlessly(a) {
      forall text: string, b: Settings | IsValid(b) ensures Write(Write(text, a), b) == Write(text, b) {
        HarmlessLeavesNoTrace(a, text, b);
      }
    } else {
      var i := FirstHarm(MessageTail(a), 0);
      if Slot(MessageTail(a)[i]).None? {
        KeptPieceShows(a, i);
      } else {
        OtherPieceShows(a, i);
      }
    }
  }

  lemma {:induction false} FirstHarm(lines: seq<string>, from: nat) returns (i: nat)
    requires from <= |lines| && exists j :: from <= j < |lines| && Slot(lines[j]) != Some(Motd)
    requires forall j :: 0 <= j < from ==> Slot(lines[j]) == Some(Motd)
    ensures i < |lines| && Slot(lines[i]) != Some(Motd)
    ensures forall j :: 0 <= j < i ==> Slot(lines[j]) == Some(Motd)
    decreases |lines| - from
  {
    if Slot(lines[from]) != Some(Motd) {
      i := from;
    } else {
      i := FirstHarm(lines, from + 1);
    }
  }

  /** A message on one line breaks into nothing, which is the case that `LastWriteWins` covers directly. */
  lemma OneLineIsHarmless(a: Settings)
    requires IsValid(a) && IsOneLine(FlattenLine(a.motd))
    ensures MessageTail(a) == [] && LeavesNoTrace(a)
  {
    AssignmentIsLine(a, Motd);
    CleanLineFrom(Assignment(a, Motd), "");
    forall text: string, b: Settings | IsValid(b) ensures Write(Write(text, a), b) == Write(text, b) {
      LastWriteWins(text, a, b);
    }
  }
}

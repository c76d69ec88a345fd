/** The message in which the provider reports failed MCP servers: it is parsed into entries,
    filtered, and put together again. */
module McpMessage {
  import opened Text

  const PREFIX := "MCP server connection failed: "
  const SEP := ", "

  /** A failed server: its name, and the stretch of the message that named it. */
  datatype Entry = Entry(name: string, segment: string)

  function NameOf(segment: string): string {
    Trim(Split(segment, " (")[0])
  }

  function Candidate(piece: string): Entry {
    Entry(NameOf(Trim(piece)), Trim(piece))
  }

  function Candidates(pieces: seq<string>): (r: seq<Entry>)
    ensures |r| == |pieces| && forall i :: 0 <= i < |pieces| ==> r[i] == Candidate(pieces[i])
  {
    seq(|pieces|, i requires 0 <= i < |pieces| => Candidate(pieces[i]))
  }

  /** The candidates in order, without those that have no name or a name already `seen`. */
  function Collect(candidates: seq<Entry>, seen: set<string>): seq<Entry> {
    if |candidates| == 0 then []
    else
      var e := candidates[0];
      if |e.name| == 0 || e.name in seen then Collect(candidates[1..], seen)
      else [e] + Collect(candidates[1..], seen + {e.name})
  }

  function Parse(message: string): seq<Entry> {
    if PREFIX <= message then Collect(Candidates(Split(message[|PREFIX|..], SEP)), {}) else []
  }

  function Segments(entries: seq<Entry>): seq<string> {
    seq(|entries|, i requires 0 <= i < |entries| => entries[i].segment)
  }

  /** The message that is forwarded for a list of entries. */
  function Rebuild(entries: seq<Entry>): string {
    PREFIX + Join(Segments(entries), SEP)
  }

  method ParseMcpFailureServerNames(message: string) returns (entries: seq<Entry>)
    ensures entries == Parse(message)
  {
    if !(PREFIX <= message) {
      return [];
    }
    var pieces := Split(message[|PREFIX|..], SEP);
    entries := CollectEntries(pieces);
  }

  method CollectEntries(pieces: seq<string>) returns (entries: seq<Entry>)
    ensures entries == Collect(Candidates(pieces), {})
  {
    ghost var all := Candidates(pieces);
    var seen: set<string> := {};
    entries := [];
    for k := 0 to |pieces|
      invariant entries + Collect(all[k..], seen) == Collect(all, {})
    {
      var segment := Trim(pieces[k]);
      var name := NameOf(segment);
      ghost var e := all[k];
      assert e.name == name && e.segment == segment;
      assert all[k..][1..] == all[k + 1..];
      if |name| > 0 {
        if name !in seen {
          Associate(entries, e, Collect(all[k + 1..], seen + {name}));
          seen := seen + {name};
          entries := entries + [Entry(name, segment)];
        }
      }
    }
  }

  lemma Associate(a: seq<Entry>, e: Entry, b: seq<Entry>)
    ensures a + ([e] + b) == (a + [e]) + b
  {
  }

  // ---------------------------------------------------------------------
  // What the entries of a message are
  // ---------------------------------------------------------------------

  /** No comma is followed by a space. */
  ghost predicate Clean(s: string) {
    forall i, j :: 0 <= i && j == i + 1 && j < |s| ==> !(s[i] == ',' && s[j] == ' ')
  }

  lemma SeparatorAt(s: string, i: nat)
    requires i <= |s|
    ensures OccursAt(SEP, s, i) <==> i + 1 < |s| && s[i] == ',' && s[i + 1] == ' '
  {
    if i + 1 < |s| {
      assert s[i..][..2] == [s[i], s[i + 1]];
    }
  }

  ghost predicate WellFormed(e: Entry) {
    |e.name| > 0 && NameOf(e.segment) == e.name && Trimmed(e.segment) && Clean(e.segment)
  }

  ghost predicate DistinctNames(entries: seq<Entry>) {
    forall i, j :: 0 <= i < j < |entries| ==> entries[i].name != entries[j].name
  }

  lemma {:induction false} PiecesAreClean(s: string)
    ensures Split(s, SEP)[0] <= s
    ensures forall p :: p in Split(s, SEP) ==> Clean(p)
  {
    if |s| > 0 {
      assert s[0..] == s;
      SeparatorAt(s, 0);
      if SEP <= s {
        PiecesAreClean(s[2..]);
      } else {
        var r := Split(s[1..], SEP);
        PiecesAreClean(s[1..]);
        assert Clean(r[0]);
        assert r[0] <= s[1..];
        assert |r[0]| > 0 ==> r[0][0] == s[1];
      }
    }
  }

  lemma TrimKeepsClean(s: string)
    requires Clean(s)
    ensures Clean(Trim(s)) && Trimmed(Trim(s))
  {
    var from := TrimSpec(s);
    var t := Trim(s);
    forall i, j | 0 <= i && j == i + 1 && j < |t|
      ensures !(t[i] == ',' && t[j] == ' ')
    {
      assert t[i] == s[from + i] && t[j] == s[from + i + 1];
    }
  }

  /** Whatever holds of the candidates that have a name holds of the entries, whose names are
      distinct and not among those already seen. */
  lemma {:induction false} CollectedEntries(candidates: seq<Entry>, seen: set<string>)
    ensures forall e :: e in Collect(candidates, seen) ==> e in candidates && |e.name| > 0 && e.name !in seen
    ensures DistinctNames(Collect(candidates, seen))
  {
    if |candidates| > 0 {
      CollectedEntries(candidates[1..], seen);
      CollectedEntries(candidates[1..], seen + {candidates[0].name});
    }
  }

  /** `at` says from which candidate each entry comes: in increasing order, and each time the
      first candidate of that name. */
  ghost predicate FirstOccurrences(candidates: seq<Entry>, entries: seq<Entry>, at: seq<nat>) {
    && |at| == |entries|
    && (forall i, j :: 0 <= i < j < |at| ==> at[i] < at[j])
    && (forall k :: 0 <= k < |at| ==> at[k] < |candidates| && entries[k] == candidates[at[k]])
    && (forall k, p :: 0 <= k < |at| && 0 <= p < at[k] ==> candidates[p].name != entries[k].name)
  }

  ghost predicate HasName(entries: seq<Entry>, name: string) {
    exists k :: 0 <= k < |entries| && entries[k].name == name
  }

  ghost function Shifted(at: seq<nat>): (r: seq<nat>)
    ensures |r| == |at| && forall i :: 0 <= i < |at| ==> r[i] == at[i] + 1
  {
    seq(|at|, i requires 0 <= i < |at| => at[i] + 1)
  }

  lemma PassOver(candidates: seq<Entry>, entries: seq<Entry>, rest: seq<nat>)
    requires |candidates| > 0 && FirstOccurrences(candidates[1..], entries, rest)
    requires forall k :: 0 <= k < |entries| ==> entries[k].name != candidates[0].name
    ensures FirstOccurrences(candidates, entries, Shifted(rest))
  {
    var at := Shifted(rest);
    forall k, p | 0 <= k < |at| && 0 <= p < at[k]
      ensures candidates[p].name != entries[k].name
    {
      assert p > 0 ==> candidates[1..][p - 1] == candidates[p];
    }
  }

  lemma TakeFirst(candidates: seq<Entry>, entries: seq<Entry>, at: seq<nat>)
    requires |candidates| > 0 && FirstOccurrences(candidates, entries, at)
    requires forall k :: 0 <= k < |at| ==> at[k] > 0
    ensures FirstOccurrences(candidates, [candidates[0]] + entries, [0] + at)
  {
    var entries', at' := [candidates[0]] + entries, [0] + at;
    forall k, p | 0 <= k < |at'| && 0 <= p < at'[k]
      ensures candidates[p].name != entries'[k].name
    {
      assert at'[k] == at[k - 1] && entries'[k] == entries[k - 1];
    }
  }

  lemma {:induction false} CollectFirstOccurrences(candidates: seq<Entry>, seen: set<string>)
    returns (at: seq<nat>)
    ensures FirstOccurrences(candidates, Collect(candidates, seen), at)
  {
    at := [];
    if |candidates| > 0 {
      var e, tail := candidates[0], candidates[1..];
      var skipped := |e.name| == 0 || e.name in seen;
      var seen' := if skipped then seen else seen + {e.name};
      var more := Collect(tail, seen');
      var rest := CollectFirstOccurrences(tail, seen');
      CollectedEntries(tail, seen');
      assert forall k :: 0 <= k < |more| ==> more[k] in more;
      PassOver(candidates, more, rest);
      at := Shifted(rest);
      if !skipped {
        TakeFirst(candidates, more, at);
        at := [0] + at;
      }
    }
  }

  /** No name is missed. */
  lemma {:induction false} NoNameIsMissed(candidates: seq<Entry>, seen: set<string>, p: nat)
    requires p < |candidates| && |candidates[p].name| > 0 && candidates[p].name !in seen
    ensures HasName(Collect(candidates, seen), candidates[p].name)
  {
    var e, tail := candidates[0], candidates[1..];
    if |e.name| == 0 || e.name in seen {
      NoNameIsMissed(tail, seen, p - 1);
    } else if candidates[p].name == e.name {
      assert Collect(candidates, seen)[0].name == e.name;
    } else {
      NoNameIsMissed(tail, seen + {e.name}, p - 1);
      var more := Collect(tail, seen + {e.name});
      var k :| 0 <= k < |more| && more[k].name == candidates[p].name;
      assert Collect(candidates, seen)[k + 1] == more[k];
    }
  }

  // ---------------------------------------------------------------------
  // Parsing a rebuilt message
  // ---------------------------------------------------------------------

  lemma SegmentCutsOff(segment: string, rest: string)
    requires Clean(segment)
    ensures Split(segment + (SEP + rest), SEP) == [segment] + Split(rest, SEP)
  {
    var s := segment + (SEP + rest);
    forall i | 0 <= i < |segment|
      ensures !OccursAt(SEP, s, i)
    {
      SeparatorAt(s, i);
      assert s[|segment|] == SEP[0] == ',';
      var j := i + 1;
      assert j < |segment| ==> !(segment[i] == ',' && segment[j] == ' ');
    }
    SplitAt(segment, SEP, rest);
  }

  lemma CleanIsOnePiece(piece: string)
    requires Clean(piece)
    ensures Split(piece, SEP) == [piece]
  {
    forall i | 0 <= i < |piece|
      ensures !OccursAt(SEP, piece, i)
    {
      SeparatorAt(piece, i);
    }
    SplitFree(piece, SEP);
  }

  lemma {:induction false} SplitJoin(pieces: seq<string>)
    requires |pieces| > 0 && forall p :: p in pieces ==> Clean(p)
    ensures Split(Join(pieces, SEP), SEP) == pieces
  {
    if |pieces| == 1 {
      CleanIsOnePiece(pieces[0]);
    } else {
      SplitJoin(pieces[1..]);
      SegmentCutsOff(pieces[0], Join(pieces[1..], SEP));
    }
  }

  lemma {:induction false} CollectDistinct(entries: seq<Entry>, seen: set<string>)
    requires DistinctNames(entries)
    requires forall i :: 0 <= i < |entries| ==> |entries[i].name| > 0 && entries[i].name !in seen
    ensures Collect(entries, seen) == entries
  {
    if |entries| > 0 {
      CollectDistinct(entries[1..], seen + {entries[0].name});
    }
  }

  lemma SegmentsAreCandidates(entries: seq<Entry>)
    requires forall i :: 0 <= i < |entries| ==> WellFormed(entries[i])
    ensures Candidates(Segments(entries)) == entries
  {
    forall i | 0 <= i < |entries|
      ensures Candidates(Segments(entries))[i] == entries[i]
    {
      assert WellFormed(entries[i]);
      TrimOfTrimmed(entries[i].segment);
    }
  }

  /** A segment's name is what stands, without white space around it, before the first parenthesis that
      follows a space, or in the whole segment if there is none. */
  lemma NameIsBeforeParenthesis(segment: string) returns (before: string, after: string, rest: string)
    ensures AllWhitespace(before) && AllWhitespace(after) && Trimmed(NameOf(segment))
    ensures segment == before + NameOf(segment) + after + rest && (rest == "" || " (" <= rest)
    ensures forall i :: 0 <= i < |segment| - |rest| ==> !(" (" <= segment[i..])
  {
    var head := Split(segment, " (")[0];
    FirstPiece(segment, " (");
    before, after := PaddingAround(head);
    var from := TrimSpec(head);
    rest := segment[|head|..];
    assert segment == head + rest;
    forall i | 0 <= i < |segment| - |rest|
      ensures !(" (" <= segment[i..])
    {
      assert !OccursAt(" (", segment, i);
    }
  }

  /** Every entry of a message is well formed, and no two have the same name; a message that does not begin
      as it should has none. */
  lemma ParsedEntries(message: string)
    ensures !("MCP server connection failed: " <= message) ==> Parse(message) == []
    ensures DistinctNames(Parse(message)) && forall e :: e in Parse(message) ==> WellFormed(e)
  {
    if PREFIX <= message {
      var pieces := Split(message[|PREFIX|..], SEP);
      PiecesAreClean(message[|PREFIX|..]);
      CollectedEntries(Candidates(pieces), {});
      forall e | e in Parse(message)
        ensures WellFormed(e)
      {
        var i :| 0 <= i < |pieces| && e == Candidate(pieces[i]);
        assert Clean(pieces[i]);
        TrimKeepsClean(pieces[i]);
      }
    }
  }

  /** Any selection of a message's entries survives being rebuilt into a message and parsed
      again. The forwarded and the suppressed entries of a message are such selections. */
  lemma RebuildParse(message: string, selection: seq<Entry>)
    requires DistinctNames(selection) && forall e :: e in selection ==> e in Parse(message)
    ensures Parse(Rebuild(selection)) == selection
  {
    ParsedEntries(message);
    var segments := Segments(selection);
    assert Rebuild(selection)[|PREFIX|..] == Join(segments, SEP);
    forall i | 0 <= i < |selection|
      ensures WellFormed(selection[i])
    {
      assert selection[i] in selection;
    }
    if |selection| == 0 {
      assert Split("", SEP) == [""];
      assert Candidate("").name == "";
      assert Candidates([""])[1..] == [];
    } else {
      forall p | p in segments
        ensures Clean(p)
      {
        var i :| 0 <= i < |selection| && p == selection[i].segment;
        assert WellFormed(selection[i]);
      }
      SplitJoin(segments);
      SegmentsAreCandidates(selection);
      CollectDistinct(selection, {});
    }
  }
}

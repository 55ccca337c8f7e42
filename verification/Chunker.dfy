/** Splitting text into chunks at headings, table lines and blank lines, never inside a code fence. */
module Chunker {
  datatype Chunk = Chunk(chunkId: string, sourceRef: string, sourceVersion: string, text: string, locator: string)

  // ---------------------------------------------------------------------
  // Text
  // ---------------------------------------------------------------------

  function StripLeft(text: string, space: char -> bool): string {
    if text != "" && space(text[0]) then StripLeft(text[1..], space) else text
  }

  function StripRight(text: string, space: char -> bool): string {
    if text != "" && space(text[|text| - 1]) then StripRight(text[..|text| - 1], space) else text
  }

  function Strip(text: string, space: char -> bool): string {
    StripRight(StripLeft(text, space), space)
  }

  predicate Blank(line: string, space: char -> bool) {
    Strip(line, space) == ""
  }

  predicate Fence(line: string, space: char -> bool) {
    "```" <= Strip(line, space)
  }

  /** A line that opens a new chunk when it stands outside a fence. */
  predicate Boundary(line: string, space: char -> bool) {
    "#" <= line || "|" <= line || Blank(line, space)
  }

  function Joined(lines: seq<string>): string {
    if lines == [] then ""
    else if |lines| == 1 then lines[0]
    else Joined(lines[..|lines| - 1]) + "\n" + lines[|lines| - 1]
  }

  function Decimal(n: nat): string {
    if n < 10 then [('0' as int + n) as char] else Decimal(n / 10) + [('0' as int + n % 10) as char]
  }

  // ---------------------------------------------------------------------
  // The splitter
  // ---------------------------------------------------------------------

  /** The buffers flushed so far, the current buffer, and whether a fence is open. */
  datatype State = State(groups: seq<seq<string>>, buffer: seq<string>, inCode: bool)

  function Flushed(groups: seq<seq<string>>, buffer: seq<string>): seq<seq<string>> {
    if buffer == [] then groups else groups + [buffer]
  }

  function Step(state: State, line: string, space: char -> bool): State {
    if Fence(line, space) then State(state.groups, state.buffer + [line], !state.inCode)
    else if !state.inCode && Boundary(line, space) then
      State(Flushed(state.groups, state.buffer), if Blank(line, space) then [] else [line], false)
    else state.(buffer := state.buffer + [line])
  }

  function Run(lines: seq<string>, space: char -> bool): State {
    if lines == [] then State([], [], false)
    else Step(Run(lines[..|lines| - 1], space), lines[|lines| - 1], space)
  }

  /** The buffers of a whole text. */
  function Groups(lines: seq<string>, space: char -> bool): seq<seq<string>> {
    var end := Run(lines, space);
    Flushed(end.groups, end.buffer)
  }

  /** A buffer becomes a chunk unless nothing is left of it after stripping. */
  function Emitted(groups: seq<seq<string>>, locator: string, space: char -> bool): seq<Chunk> {
    if groups == [] then []
    else
      var earlier := Emitted(groups[..|groups| - 1], locator, space);
      var body := Strip(Joined(groups[|groups| - 1]), space);
      if body == "" then earlier
      else earlier + [Chunk("chunk:" + Decimal(|earlier|), "", "", body, locator)]
  }

  method SplitSemanticChunks(lines: seq<string>, locator: string, space: char -> bool) returns (chunks: seq<Chunk>)
    ensures chunks == Emitted(Groups(lines, space), locator, space)
  {
    hide Strip, Joined, Fence, Blank;
    chunks := [];
    var buffer: seq<string> := [];
    var inCode := false;
    for l := 0 to |lines|
      invariant SplitTo(lines, l, locator, space, chunks, buffer, inCode)
    {
      var line := lines[l];
      SplitTurn(lines, l, space);
      if Fence(line, space) {
        inCode := !inCode;
        buffer := buffer + [line];
        continue;
      }
      if !inCode && (("#" <= line) || ("|" <= line) || Blank(line, space)) {
        if buffer != [] {
          var body := Strip(Joined(buffer), space);
          EmittedNext(Run(lines[..l], space).groups, buffer, locator, space);
          if body != "" {
            chunks := chunks + [Chunk("chunk:" + Decimal(|chunks|), "", "", body, locator)];
          }
          buffer := [];
        }
        if !Blank(line, space) {
          buffer := buffer + [line];
        }
        continue;
      }
      buffer := buffer + [line];
    }
    assert lines[..|lines|] == lines;
    if buffer != [] {
      var body := Strip(Joined(buffer), space);
      EmittedNext(Run(lines, space).groups, buffer, locator, space);
      if body != "" {
        chunks := chunks + [Chunk("chunk:" + Decimal(|chunks|), "", "", body, locator)];
      }
    }
  }

  ghost predicate SplitTo(lines: seq<string>, l: nat, locator: string, space: char -> bool,
                          chunks: seq<Chunk>, buffer: seq<string>, inCode: bool)
  {
    l <= |lines|
    && var state := Run(lines[..l], space);
       chunks == Emitted(state.groups, locator, space) && buffer == state.buffer && inCode == state.inCode
  }

  lemma SplitTurn(lines: seq<string>, l: nat, space: char -> bool)
    requires l < |lines|
    ensures Run(lines[..l + 1], space) == Step(Run(lines[..l], space), lines[l], space)
  {
    assert lines[..l + 1][..l] == lines[..l];
  }

  lemma EmittedNext(groups: seq<seq<string>>, buffer: seq<string>, locator: string, space: char -> bool)
    ensures var earlier, body := Emitted(groups, locator, space), Strip(Joined(buffer), space);
            Emitted(groups + [buffer], locator, space) ==
            if body == "" then earlier else earlier + [Chunk("chunk:" + Decimal(|earlier|), "", "", body, locator)]
  {
    assert (groups + [buffer])[..|groups|] == groups;
  }

  // ---------------------------------------------------------------------
  // Nothing is lost and nothing is dropped as empty
  // ---------------------------------------------------------------------

  function NonBlank(lines: seq<string>, space: char -> bool): seq<string> {
    if lines == [] then []
    else
      var earlier, last := NonBlank(lines[..|lines| - 1], space), lines[|lines| - 1];
      if Blank(last, space) then earlier else earlier + [last]
  }

  function AllNonBlank(groups: seq<seq<string>>, space: char -> bool): seq<string> {
    if groups == [] then []
    else AllNonBlank(groups[..|groups| - 1], space) + NonBlank(groups[|groups| - 1], space)
  }

  lemma NonBlankNext(lines: seq<string>, line: string, space: char -> bool)
    ensures NonBlank(lines + [line], space) ==
            if Blank(line, space) then NonBlank(lines, space) else NonBlank(lines, space) + [line]
  {
    assert (lines + [line])[..|lines|] == lines;
  }

  lemma NonBlankFew(line: string, space: char -> bool)
    ensures NonBlank([], space) == []
    ensures !Blank(line, space) ==> NonBlank([line], space) == [line]
  {
    NonBlankNext([], line, space);
    assert [] + [line] == [line];
  }

  lemma AllNonBlankNext(groups: seq<seq<string>>, buffer: seq<string>, space: char -> bool)
    ensures AllNonBlank(Flushed(groups, buffer), space) == AllNonBlank(groups, space) + NonBlank(buffer, space)
  {
    if buffer == [] {
      assert AllNonBlank(groups, space) + [] == AllNonBlank(groups, space);
    } else {
      assert (groups + [buffer])[..|groups|] == groups;
    }
  }

  lemma FenceIsNotBlank(line: string, space: char -> bool)
    requires Fence(line, space)
    ensures !Blank(line, space)
  {
  }

  /** The nonblank lines that a state has taken in: those of the flushed buffers, then the current one's. */
  function Taken(state: State, space: char -> bool): seq<string> {
    AllNonBlank(state.groups, space) + NonBlank(state.buffer, space)
  }

  /** The nonblank lines of the text are those taken in, in order. */
  lemma {:induction false} RunKeepsLines(lines: seq<string>, space: char -> bool)
    ensures NonBlank(lines, space) == Taken(Run(lines, space), space)
  {
    if lines != [] {
      var init, line := lines[..|lines| - 1], lines[|lines| - 1];
      var state := Run(init, space);
      RunKeepsLines(init, space);
      StepKeepsLines(state, line, space);
    }
  }

  lemma StepKeepsLines(state: State, line: string, space: char -> bool)
    ensures Taken(Step(state, line, space), space) ==
            Taken(state, space) + if Blank(line, space) then [] else [line]
  {
    hide Blank, Fence, Boundary, NonBlank, AllNonBlank, Flushed;
    var before := Taken(state, space);
    if Fence(line, space) {
      FenceIsNotBlank(line, space);
    }
    if !Fence(line, space) && !state.inCode && Boundary(line, space) {
      AllNonBlankNext(state.groups, state.buffer, space);
      NonBlankFew(line, space);
      assert before + [] == before;
    } else {
      NonBlankNext(state.buffer, line, space);
      assert AllNonBlank(state.groups, space) + (NonBlank(state.buffer, space) + [line]) == before + [line];
    }
  }

  /** The chunks' lines, before stripping, are the text's nonblank lines in order. */
  lemma GroupsKeepLines(lines: seq<string>, space: char -> bool)
    ensures AllNonBlank(Groups(lines, space), space) == NonBlank(lines, space)
  {
    RunKeepsLines(lines, space);
    AllNonBlankNext(Run(lines, space).groups, Run(lines, space).buffer, space);
  }

  /** Every buffer starts with a nonblank line, and while a fence is open there is one. */
  ghost predicate Started(state: State, space: char -> bool) {
    && (forall g | 0 <= g < |state.groups| :: state.groups[g] != [] && !Blank(state.groups[g][0], space))
    && (state.buffer != [] ==> !Blank(state.buffer[0], space))
    && (state.inCode ==> state.buffer != [])
  }

  lemma {:induction false} RunStarted(lines: seq<string>, space: char -> bool)
    ensures Started(Run(lines, space), space)
  {
    if lines != [] {
      RunStarted(lines[..|lines| - 1], space);
      var line := lines[|lines| - 1];
      if Fence(line, space) {
        FenceIsNotBlank(line, space);
      }
      hide Blank, Fence;
    }
  }

  lemma {:induction false} StripLeftEmpty(text: string, space: char -> bool)
    ensures StripLeft(text, space) == "" <==> forall c <- text :: space(c)
    ensures StripLeft(text, space) != "" ==> !space(StripLeft(text, space)[0])
    ensures forall c <- StripLeft(text, space) :: c in text
  {
    if text != "" && space(text[0]) {
      StripLeftEmpty(text[1..], space);
      assert text == [text[0]] + text[1..];
    }
  }

  lemma {:induction false} StripRightKeepsHead(text: string, space: char -> bool)
    requires text != "" && !space(text[0])
    ensures StripRight(text, space) != ""
  {
    if space(text[|text| - 1]) {
      StripRightKeepsHead(text[..|text| - 1], space);
    }
  }

  /** A text strips to nothing exactly when it is all spaces. */
  lemma BlankExactly(text: string, space: char -> bool)
    ensures Blank(text, space) <==> forall c <- text :: space(c)
  {
    StripLeftEmpty(text, space);
    if StripLeft(text, space) != "" {
      StripRightKeepsHead(StripLeft(text, space), space);
    }
  }

  lemma {:induction false} JoinedHasFirst(lines: seq<string>, c: char)
    requires lines != [] && c in lines[0]
    ensures c in Joined(lines)
  {
    if |lines| > 1 {
      JoinedHasFirst(lines[..|lines| - 1], c);
    }
  }

  /** A buffer that starts with a nonblank line leaves something after stripping. */
  lemma StartedIsKept(lines: seq<string>, space: char -> bool)
    requires lines != [] && !Blank(lines[0], space)
    ensures Strip(Joined(lines), space) != ""
  {
    BlankExactly(lines[0], space);
    var c :| c in lines[0] && !space(c);
    JoinedHasFirst(lines, c);
    BlankExactly(Joined(lines), space);
  }

  lemma {:induction false} EmittedAll(groups: seq<seq<string>>, locator: string, space: char -> bool)
    requires forall g | 0 <= g < |groups| :: groups[g] != [] && !Blank(groups[g][0], space)
    ensures var chunks := Emitted(groups, locator, space);
            && |chunks| == |groups|
            && forall g | 0 <= g < |groups| ::
                 chunks[g] == Chunk("chunk:" + Decimal(g), "", "", Strip(Joined(groups[g]), space), locator)
  {
    hide Strip, Joined, Blank, Decimal;
    if groups != [] {
      EmittedAll(groups[..|groups| - 1], locator, space);
      StartedIsKept(groups[|groups| - 1], space);
    }
  }

  /** One chunk for every buffer, numbered from 0. */
  lemma NoBufferIsDropped(lines: seq<string>, locator: string, space: char -> bool)
    ensures var groups, chunks := Groups(lines, space), Emitted(Groups(lines, space), locator, space);
            && |chunks| == |groups|
            && forall g | 0 <= g < |groups| ::
                 chunks[g] == Chunk("chunk:" + Decimal(g), "", "", Strip(Joined(groups[g]), space), locator)
                 && chunks[g].text != ""
  {
    RunStarted(lines, space);
    var groups := Groups(lines, space);
    hide Blank, Run, Strip, Joined;
    EmittedAll(groups, locator, space);
    forall g | 0 <= g < |groups| ensures Strip(Joined(groups[g]), space) != "" {
      StartedIsKept(groups[g], space);
    }
  }

  // ---------------------------------------------------------------------
  // Where lines end up
  // ---------------------------------------------------------------------

  /** A step extends the buffer, or flushes it and starts another. */
  lemma StepOnlyAdds(state: State, line: string, space: char -> bool)
    ensures var after := Step(state, line, space);
            || (after.groups == state.groups && state.buffer <= after.buffer)
            || (after.groups == state.groups + [state.buffer] && state.buffer != [])
            || (after.groups == state.groups && state.buffer == [])
  {
  }

  /** What is in the buffer after `l` lines opens the group that the buffer becomes. */
  lemma {:induction false} BufferOpensGroup(lines: seq<string>, l: nat, m: nat, space: char -> bool)
    requires l <= m <= |lines| && Run(lines[..l], space).buffer != []
    ensures var earlier, later := Run(lines[..l], space), Run(lines[..m], space);
            var g := |earlier.groups|;
            && earlier.groups <= later.groups
            && if |later.groups| == g then earlier.buffer <= later.buffer
               else earlier.buffer <= later.groups[g]
    decreases m
  {
    hide Fence, Blank, Boundary, Run;
    if l < m {
      BufferOpensGroup(lines, l, m - 1, space);
      SplitTurn(lines, m - 1, space);
      StepOnlyAdds(Run(lines[..m - 1], space), lines[m - 1], space);
    }
  }

  lemma BufferOpensFinalGroup(lines: seq<string>, l: nat, space: char -> bool)
    requires l <= |lines| && Run(lines[..l], space).buffer != []
    ensures var earlier, g := Run(lines[..l], space), |Run(lines[..l], space).groups|;
            g < |Groups(lines, space)| && earlier.buffer <= Groups(lines, space)[g]
  {
    BufferOpensGroup(lines, l, |lines|, space);
    assert lines[..|lines|] == lines;
  }

  /** From the fence at `i` on, as long as the fence is open, the buffer takes every line. */
  lemma {:induction false} FenceFillsBuffer(lines: seq<string>, i: nat, j: nat, space: char -> bool)
    requires i <= j < |lines| && Fence(lines[i], space)
    requires forall t | i < t <= j :: Run(lines[..t], space).inCode
    ensures var before, after := Run(lines[..i], space), Run(lines[..j + 1], space);
            after.groups == before.groups && after.buffer == before.buffer + lines[i..j + 1]
    decreases j
  {
    SplitTurn(lines, j, space);
    if i == j {
      assert lines[i..j + 1] == [lines[i]];
    } else {
      FenceFillsBuffer(lines, i, j - 1, space);
      assert Run(lines[..j], space).inCode;
      assert lines[i..j + 1] == lines[i..j] + [lines[j]];
      hide Fence, Blank, Boundary, Run;
      var before := Run(lines[..i], space);
      assert before.buffer + lines[i..j] + [lines[j]] == before.buffer + (lines[i..j] + [lines[j]]);
    }
  }

  /** A fenced block, from its opening to its closing line, lies in one chunk without interruption. */
  lemma FencedBlockIsInOneChunk(lines: seq<string>, i: nat, j: nat, space: char -> bool) returns (g: nat, start: nat)
    requires i <= j < |lines| && Fence(lines[i], space)
    requires forall t | i < t <= j :: Run(lines[..t], space).inCode
    ensures g < |Groups(lines, space)| && start + (j + 1 - i) <= |Groups(lines, space)[g]|
    ensures Groups(lines, space)[g][start..start + (j + 1 - i)] == lines[i..j + 1]
  {
    hide Run, Groups, Fence, NonBlank, Strip;
    FenceFillsBuffer(lines, i, j, space);
    BufferOpensFinalGroup(lines, j + 1, space);
    var before, after := Run(lines[..i], space), Run(lines[..j + 1], space);
    g, start := |after.groups|, |before.buffer|;
    BlockInside(Groups(lines, space)[g], before.buffer, lines[i..j + 1]);
  }

  lemma BlockInside(group: seq<string>, start: seq<string>, block: seq<string>)
    requires start + block <= group
    ensures group[|start|..|start| + |block|] == block
  {
    assert (start + block)[|start|..] == block;
  }

  /** Outside fences a heading or table line is the first line of its chunk. */
  lemma HeadingOpensChunk(lines: seq<string>, i: nat, space: char -> bool)
    requires i < |lines| && !Run(lines[..i], space).inCode && !Fence(lines[i], space) && !Blank(lines[i], space)
    requires "#" <= lines[i] || "|" <= lines[i]
    ensures var g := |Run(lines[..i + 1], space).groups|;
            g < |Groups(lines, space)| && Groups(lines, space)[g] != [] && Groups(lines, space)[g][0] == lines[i]
    ensures Run(lines[..i + 1], space).buffer == [lines[i]]
  {
    SplitTurn(lines, i, space);
    assert Run(lines[..i + 1], space).buffer == [lines[i]];
    BufferOpensFinalGroup(lines, i + 1, space);
  }

  // ---------------------------------------------------------------------
  // Which lines share a chunk
  // ---------------------------------------------------------------------

  /** The chunk that line `i` goes to, when the line is kept. */
  function ChunkOf(lines: seq<string>, i: nat, space: char -> bool): nat
    requires i < |lines|
  {
    |Run(lines[..i + 1], space).groups|
  }

  lemma NonBlankIsBuffered(lines: seq<string>, i: nat, space: char -> bool)
    requires i < |lines| && !Blank(lines[i], space)
    ensures var buffer := Run(lines[..i + 1], space).buffer; buffer != [] && buffer[|buffer| - 1] == lines[i]
  {
    SplitTurn(lines, i, space);
  }

  /** A nonblank line is in its chunk. */
  lemma LineIsInItsChunk(lines: seq<string>, i: nat, space: char -> bool)
    requires i < |lines| && !Blank(lines[i], space)
    ensures ChunkOf(lines, i, space) < |Groups(lines, space)|
    ensures lines[i] in Groups(lines, space)[ChunkOf(lines, i, space)]
  {
    hide Run, Groups, Blank;
    NonBlankIsBuffered(lines, i, space);
    BufferOpensFinalGroup(lines, i + 1, space);
  }

  /**
   * Two neighbouring nonblank lines share a chunk exactly when a fence is open between them or the
   * second is no heading and no table line.
   */
  lemma NeighboursShareChunkExactly(lines: seq<string>, i: nat, space: char -> bool)
    requires i + 1 < |lines| && !Blank(lines[i], space) && !Blank(lines[i + 1], space)
    ensures ChunkOf(lines, i, space) == ChunkOf(lines, i + 1, space) <==>
            || Run(lines[..i + 1], space).inCode
            || Fence(lines[i + 1], space)
            || !("#" <= lines[i + 1] || "|" <= lines[i + 1])
  {
    hide Blank, Fence, Run;
    NonBlankIsBuffered(lines, i, space);
    SplitTurn(lines, i + 1, space);
  }

  /** A blank line outside fences separates: what comes before it and what comes after it share no chunk. */
  lemma BlankLineSeparates(lines: seq<string>, h: nat, i: nat, j: nat, space: char -> bool)
    requires h < i < j < |lines| && !Blank(lines[h], space) && !Blank(lines[j], space)
    requires Blank(lines[i], space) && !Run(lines[..i], space).inCode
    ensures ChunkOf(lines, h, space) < ChunkOf(lines, j, space)
  {
    if Fence(lines[i], space) {
      FenceIsNotBlank(lines[i], space);
    }
    hide Blank, Fence, Run;
    NonBlankIsBuffered(lines, h, space);
    BufferOpensGroup(lines, h + 1, i, space);
    SplitTurn(lines, i, space);
    GroupsGrow(lines, i + 1, j + 1, space);
  }

  lemma {:induction false} GroupsGrow(lines: seq<string>, l: nat, m: nat, space: char -> bool)
    requires l <= m <= |lines|
    ensures |Run(lines[..l], space).groups| <= |Run(lines[..m], space).groups|
    decreases m
  {
    hide Fence, Blank, Boundary, Run, Step;
    if l < m {
      GroupsGrow(lines, l, m - 1, space);
      SplitTurn(lines, m - 1, space);
      StepOnlyAdds(Run(lines[..m - 1], space), lines[m - 1], space);
    }
  }
}

/**
 * `display_conversation_log` (components.py:38-48): the stored turns are
 * replayed in order, each inside its own chat message. A user turn shows
 * its text; a turn of any other role shows the product card of its
 * retrieved documents. A card that fails raises out of the loop, so the
 * replay stops there. The history is passed in as a value and only read.
 */
module ConversationLog {
  import Text
  import opened Display
  import opened CardRenderer
  import RecordParser

  /** What a turn carries: the text the user typed, or the documents the
      retriever returned for an answer. */
  datatype Content = Said(text: string) | Retrieved(docs: seq<Document>)

  datatype Turn = Turn(role: string, content: Content)

  const UserRole: string := "user"

  /** The shape the history is stored in: user turns carry text, every
      other turn carries documents. */
  predicate WellFormed(turn: Turn)
  {
    turn.role == UserRole <==> turn.content.Said?
  }

  predicate AllWellFormed(turns: seq<Turn>)
  {
    forall i :: 0 <= i < |turns| ==> WellFormed(turns[i])
  }

  function SpeakerOf(turn: Turn): Speaker
  {
    if turn.role == UserRole then User else Assistant
  }

  /** What one turn writes: a chat message of its speaker holding either the
      text or the card. */
  function TurnOutput(turn: Turn, lowSentinel: string, noneSentinel: string): (r: Rendering)
    requires WellFormed(turn)
    ensures |r.blocks| >= 1 && r.blocks[0] == ChatMessage(SpeakerOf(turn))
  {
    if turn.role == UserRole then
      Rendering([ChatMessage(User), Markdown(turn.content.text)], Shown)
    else
      var card := CardOf(turn.content.docs, lowSentinel, noneSentinel);
      Rendering([ChatMessage(Assistant)] + card.blocks, card.outcome)
  }

  /** The replay of a history: the turns' outputs one after the other, up to
      and including the first turn whose card fails. */
  function Replay(turns: seq<Turn>, lowSentinel: string, noneSentinel: string): (r: Rendering)
    requires AllWellFormed(turns)
    ensures |turns| > 0 ==> |r.blocks| >= 1 && r.blocks[0] == ChatMessage(SpeakerOf(turns[0]))
  {
    if |turns| == 0 then Rendering([], Shown)
    else
      var before := Replay(turns[..|turns| - 1], lowSentinel, noneSentinel);
      if before.outcome.Failed? then before
      else
        var last := TurnOutput(turns[|turns| - 1], lowSentinel, noneSentinel);
        Rendering(before.blocks + last.blocks, last.outcome)
  }

  /** Once a prefix of the history has failed, the later turns add nothing. */
  lemma {:induction false} FailureStops(turns: seq<Turn>, n: nat, lowSentinel: string, noneSentinel: string)
    requires AllWellFormed(turns)
    requires n <= |turns|
    requires Replay(turns[..n], lowSentinel, noneSentinel).outcome.Failed?
    ensures Replay(turns, lowSentinel, noneSentinel) == Replay(turns[..n], lowSentinel, noneSentinel)
    decreases |turns|
  {
    if n < |turns| {
      var init := turns[..|turns| - 1];
      assert init[..n] == turns[..n];
      FailureStops(init, n, lowSentinel, noneSentinel);
    } else {
      assert turns[..n] == turns;
    }
  }

  /** One more turn after a prefix that was shown in full. */
  lemma ReplayStep(turns: seq<Turn>, n: nat, lowSentinel: string, noneSentinel: string)
    requires AllWellFormed(turns)
    requires n < |turns|
    requires Replay(turns[..n], lowSentinel, noneSentinel).outcome == Shown
    ensures var last := TurnOutput(turns[n], lowSentinel, noneSentinel);
            Replay(turns[..n + 1], lowSentinel, noneSentinel)
            == Rendering(Replay(turns[..n], lowSentinel, noneSentinel).blocks + last.blocks, last.outcome)
  {
    assert turns[..n + 1][..n] == turns[..n];
  }

  /** Lines 43-48: one message, inside its chat message. */
  method DisplayTurn(ui: Surface, message: Turn, lowSentinel: string, noneSentinel: string)
    returns (outcome: Outcome)
    requires WellFormed(message)
    modifies ui
    ensures ui.blocks == old(ui.blocks) + TurnOutput(message, lowSentinel, noneSentinel).blocks
    ensures outcome == TurnOutput(message, lowSentinel, noneSentinel).outcome
  {
    if message.role == UserRole {
      ui.Emit(ChatMessage(User));
      ui.Emit(Markdown(message.content.text));
      outcome := Shown;
    } else {
      outcome := DisplayAnswer(ui, message.content.docs, lowSentinel, noneSentinel);
    }
  }

  /** Lines 47-48: an answer's chat message holding its product card. */
  method DisplayAnswer(ui: Surface, docs: seq<Document>, lowSentinel: string, noneSentinel: string)
    returns (outcome: Outcome)
    modifies ui
    ensures var card := CardOf(docs, lowSentinel, noneSentinel);
            ui.blocks == old(ui.blocks) + ([ChatMessage(Assistant)] + card.blocks) && outcome == card.outcome
  {
    ui.Emit(ChatMessage(Assistant));
    outcome := DisplayProduct(ui, docs, lowSentinel, noneSentinel);
    Text.AppendAssociates(old(ui.blocks), [ChatMessage(Assistant)], CardOf(docs, lowSentinel, noneSentinel).blocks);
  }

  /** Lines 42-48: the loop over the stored messages. */
  method DisplayConversationLog(ui: Surface, messages: seq<Turn>, lowSentinel: string, noneSentinel: string)
    returns (outcome: Outcome)
    requires AllWellFormed(messages)
    modifies ui
    ensures ui.blocks == old(ui.blocks) + Replay(messages, lowSentinel, noneSentinel).blocks
    ensures outcome == Replay(messages, lowSentinel, noneSentinel).outcome
  {
    for n := 0 to |messages|
      invariant ui.blocks == old(ui.blocks) + Replay(messages[..n], lowSentinel, noneSentinel).blocks
      invariant Replay(messages[..n], lowSentinel, noneSentinel).outcome == Shown
    {
      ReplayStep(messages, n, lowSentinel, noneSentinel);
      ghost var shown := Replay(messages[..n], lowSentinel, noneSentinel).blocks;
      ghost var turn := TurnOutput(messages[n], lowSentinel, noneSentinel).blocks;
      ghost var pre := ui.blocks;
      var turnOutcome := DisplayTurn(ui, messages[n], lowSentinel, noneSentinel);
      assert ui.blocks == pre + turn;
      Text.AppendAssociates(old(ui.blocks), shown, turn);
      if turnOutcome.Failed? {
        FailureStops(messages, n + 1, lowSentinel, noneSentinel);
        return turnOutcome;
      }
    }
    assert messages[..|messages|] == messages;
    outcome := Shown;
  }

  // Properties of the replay

  lemma ConcatWellFormed(a: seq<Turn>, b: seq<Turn>)
    requires AllWellFormed(a) && AllWellFormed(b)
    ensures AllWellFormed(a + b)
  {
    forall i | 0 <= i < |a + b| ensures WellFormed((a + b)[i]) {
      if i >= |a| {
        assert (a + b)[i] == b[i - |a|];
      }
    }
  }

  /** Replaying a history in two parts gives the same page as replaying it
      at once: the second part adds its output unless the first has failed. */
  lemma {:induction false} ReplayConcat(a: seq<Turn>, b: seq<Turn>, lowSentinel: string, noneSentinel: string)
    requires AllWellFormed(a) && AllWellFormed(b)
    ensures AllWellFormed(a + b)
    ensures var ra, rb := Replay(a, lowSentinel, noneSentinel), Replay(b, lowSentinel, noneSentinel);
            Replay(a + b, lowSentinel, noneSentinel)
            == if ra.outcome.Failed? then ra else Rendering(ra.blocks + rb.blocks, rb.outcome)
    decreases |b|
  {
    ConcatWellFormed(a, b);
    if |b| == 0 {
      assert a + b == a;
    } else {
      var init, last := b[..|b| - 1], b[|b| - 1];
      assert AllWellFormed(init);
      ReplayConcat(a, init, lowSentinel, noneSentinel);
      assert (a + b)[..|a + b| - 1] == a + init;
      assert (a + b)[|a + b| - 1] == last;
      var ra, ri := Replay(a, lowSentinel, noneSentinel), Replay(init, lowSentinel, noneSentinel);
      var whole := Replay(a + b, lowSentinel, noneSentinel);
      if ra.outcome.Failed? {
        assert whole == ra;
      } else if ri.outcome.Failed? {
        assert whole == Rendering(ra.blocks + ri.blocks, ri.outcome);
      } else {
        var out := TurnOutput(last, lowSentinel, noneSentinel);
        Text.AppendAssociates(ra.blocks, ri.blocks, out.blocks);
        assert whole == Rendering(ra.blocks + (ri.blocks + out.blocks), out.outcome);
      }
    }
  }

  /** The whole history is shown exactly when every turn's output is. */
  lemma ShownIffEveryTurnShown(turns: seq<Turn>, lowSentinel: string, noneSentinel: string)
    requires AllWellFormed(turns)
    ensures Replay(turns, lowSentinel, noneSentinel).outcome == Shown
            <==> forall i :: 0 <= i < |turns| ==> TurnOutput(turns[i], lowSentinel, noneSentinel).outcome == Shown
  {
    if Replay(turns, lowSentinel, noneSentinel).outcome == Shown {
      ShownReplayShowsEveryTurn(turns, lowSentinel, noneSentinel);
    }
    if forall i :: 0 <= i < |turns| ==> TurnOutput(turns[i], lowSentinel, noneSentinel).outcome == Shown {
      EveryTurnShownReplayShown(turns, lowSentinel, noneSentinel);
    }
  }

  /** One step of the replay: the history is shown exactly when its
      prefix is and its last turn's output is. */
  lemma ReplayOutcomeStep(turns: seq<Turn>, lowSentinel: string, noneSentinel: string)
    requires AllWellFormed(turns) && |turns| > 0
    ensures AllWellFormed(turns[..|turns| - 1])
    ensures Replay(turns, lowSentinel, noneSentinel).outcome == Shown
            <==> Replay(turns[..|turns| - 1], lowSentinel, noneSentinel).outcome == Shown
                 && TurnOutput(turns[|turns| - 1], lowSentinel, noneSentinel).outcome == Shown
  {
  }

  lemma ShownReplayShowsEveryTurn(turns: seq<Turn>, lowSentinel: string, noneSentinel: string)
    requires AllWellFormed(turns)
    requires Replay(turns, lowSentinel, noneSentinel).outcome == Shown
    ensures forall i :: 0 <= i < |turns| ==> TurnOutput(turns[i], lowSentinel, noneSentinel).outcome == Shown
  {
    forall i | 0 <= i < |turns| ensures TurnOutput(turns[i], lowSentinel, noneSentinel).outcome == Shown {
      ShownReplayShowsTurn(turns, i, lowSentinel, noneSentinel);
    }
  }

  lemma {:induction false} ShownReplayShowsTurn(turns: seq<Turn>, i: nat, lowSentinel: string, noneSentinel: string)
    requires AllWellFormed(turns) && i < |turns|
    requires Replay(turns, lowSentinel, noneSentinel).outcome == Shown
    ensures TurnOutput(turns[i], lowSentinel, noneSentinel).outcome == Shown
    decreases |turns|
  {
    ReplayOutcomeStep(turns, lowSentinel, noneSentinel);
    if i < |turns| - 1 {
      var init := turns[..|turns| - 1];
      ShownReplayShowsTurn(init, i, lowSentinel, noneSentinel);
      assert init[i] == turns[i];
    }
  }

  lemma {:induction false} EveryTurnShownReplayShown(turns: seq<Turn>, lowSentinel: string, noneSentinel: string)
    requires AllWellFormed(turns)
    requires forall i :: 0 <= i < |turns| ==> TurnOutput(turns[i], lowSentinel, noneSentinel).outcome == Shown
    ensures Replay(turns, lowSentinel, noneSentinel).outcome == Shown
    decreases |turns|
  {
    if |turns| > 0 {
      var init := turns[..|turns| - 1];
      ReplayOutcomeStep(turns, lowSentinel, noneSentinel);
      assert forall i :: 0 <= i < |init| ==> init[i] == turns[i];
      EveryTurnShownReplayShown(init, lowSentinel, noneSentinel);
    }
  }

  /** The speakers of the chat messages among some blocks, in order. */
  function Speakers(blocks: seq<Block>): (speakers: seq<Speaker>)
  {
    if |blocks| == 0 then []
    else (if blocks[0].ChatMessage? then [blocks[0].speaker] else []) + Speakers(blocks[1..])
  }

  lemma {:induction false} SpeakersConcat(a: seq<Block>, b: seq<Block>)
    ensures Speakers(a + b) == Speakers(a) + Speakers(b)
    decreases |a|
  {
    if |a| == 0 {
      assert a + b == b;
    } else {
      SpeakersConcat(a[1..], b);
      var ab := a + b;
      assert ab[0] == a[0];
      assert ab[1..] == a[1..] + b;
      var first := if a[0].ChatMessage? then [a[0].speaker] else [];
      assert Speakers(ab) == first + (Speakers(a[1..]) + Speakers(b));
      assert Speakers(a) == first + Speakers(a[1..]);
      Text.AppendAssociates(first, Speakers(a[1..]), Speakers(b));
    }
  }

  lemma {:induction false} NoChatMessageNoSpeakers(blocks: seq<Block>)
    requires forall i :: 0 <= i < |blocks| ==> !blocks[i].ChatMessage?
    ensures Speakers(blocks) == []
    decreases |blocks|
  {
    if |blocks| > 0 {
      NoChatMessageNoSpeakers(blocks[1..]);
    }
  }

  /** A product card never opens a chat message of its own. */
  lemma CardOpensNoMessage(result: seq<Document>, lowSentinel: string, noneSentinel: string)
    ensures Speakers(CardOf(result, lowSentinel, noneSentinel).blocks) == []
  {
    var r := CardOf(result, lowSentinel, noneSentinel);
    if |result| > 0 {
      var product := RecordParser.Parse(result[0].pageContent);
      assert r == RenderCard(product, lowSentinel, noneSentinel);
      RenderedIsPrefix(product, lowSentinel, noneSentinel);
      FullCardOpensNoMessage(product, lowSentinel, noneSentinel);
      PrefixOpensNoMessage(r.blocks, FullCard(product, lowSentinel, noneSentinel));
    }
    NoChatMessageNoSpeakers(r.blocks);
  }

  lemma PrefixOpensNoMessage(prefix: seq<Block>, blocks: seq<Block>)
    requires prefix <= blocks
    requires forall i :: 0 <= i < |blocks| ==> !blocks[i].ChatMessage?
    ensures forall i :: 0 <= i < |prefix| ==> !prefix[i].ChatMessage?
  {
    forall i | 0 <= i < |prefix| ensures !prefix[i].ChatMessage? {
      assert prefix[i] == blocks[i];
    }
  }

  /** Each turn writes exactly one chat message, of its own speaker. */
  lemma OneMessagePerTurn(turn: Turn, lowSentinel: string, noneSentinel: string)
    requires WellFormed(turn)
    ensures Speakers(TurnOutput(turn, lowSentinel, noneSentinel).blocks) == [SpeakerOf(turn)]
  {
    var blocks := TurnOutput(turn, lowSentinel, noneSentinel).blocks;
    if turn.role == UserRole {
      assert Speakers(blocks[1..]) == [] by {
        NoChatMessageNoSpeakers(blocks[1..]);
      }
    } else {
      CardOpensNoMessage(turn.content.docs, lowSentinel, noneSentinel);
      assert blocks[1..] == CardOf(turn.content.docs, lowSentinel, noneSentinel).blocks;
    }
  }

  /** The speakers of the turns of a history, in stored order. */
  function SpeakersOf(turns: seq<Turn>): (speakers: seq<Speaker>)
    ensures |speakers| == |turns|
  {
    seq(|turns|, i requires 0 <= i < |turns| => SpeakerOf(turns[i]))
  }

  /** The replay shows one chat message per turn, in stored order, with the
      turn's speaker: all of them when it completes, and those up to the
      failing turn otherwise. */
  lemma {:induction false} MessagesFollowTurns(turns: seq<Turn>, lowSentinel: string, noneSentinel: string)
    requires AllWellFormed(turns)
    ensures var r := Replay(turns, lowSentinel, noneSentinel);
            && Speakers(r.blocks) <= SpeakersOf(turns)
            && (r.outcome == Shown ==> Speakers(r.blocks) == SpeakersOf(turns))
    decreases |turns|
  {
    if |turns| > 0 {
      var init, last := turns[..|turns| - 1], turns[|turns| - 1];
      assert AllWellFormed(init);
      MessagesFollowTurns(init, lowSentinel, noneSentinel);
      SpeakersOfSnoc(turns);
      var before := Replay(init, lowSentinel, noneSentinel);
      if before.outcome.Shown? {
        SpeakersStep(turns, lowSentinel, noneSentinel);
      } else {
        assert Replay(turns, lowSentinel, noneSentinel) == before;
        PrefixExtends(Speakers(before.blocks), SpeakersOf(init), [SpeakerOf(last)]);
      }
    }
  }

  /** The rendering `r` of `turns` stopped at turn `k`: every turn before it
      was shown, `r` ends with that turn's outcome, and its chat messages are
      those of the turns up to and including it. */
  ghost predicate StopsAt(turns: seq<Turn>, k: int, r: Rendering, lowSentinel: string, noneSentinel: string)
    requires AllWellFormed(turns)
  {
    && 0 <= k < |turns|
    && (forall j :: 0 <= j < k ==> TurnOutput(turns[j], lowSentinel, noneSentinel).outcome == Shown)
    && TurnOutput(turns[k], lowSentinel, noneSentinel).outcome == r.outcome
    && Speakers(r.blocks) == SpeakersOf(turns[..k + 1])
  }

  /** A failed replay stops at the first turn whose output fails. */
  lemma {:induction false} FailedReplayStopsAtTurn(turns: seq<Turn>, lowSentinel: string, noneSentinel: string)
    requires AllWellFormed(turns)
    requires Replay(turns, lowSentinel, noneSentinel).outcome.Failed?
    ensures exists k :: StopsAt(turns, k, Replay(turns, lowSentinel, noneSentinel), lowSentinel, noneSentinel)
    decreases |turns|
  {
    assert |turns| > 0;
    var init := turns[..|turns| - 1];
    assert AllWellFormed(init);
    var before := Replay(init, lowSentinel, noneSentinel);
    if before.outcome.Failed? {
      FailedReplayStopsAtTurn(init, lowSentinel, noneSentinel);
      var k :| StopsAt(init, k, before, lowSentinel, noneSentinel);
      StopsAtExtends(turns, k, before, lowSentinel, noneSentinel);
      assert Replay(turns, lowSentinel, noneSentinel) == before;
    } else {
      StopsAtLast(turns, lowSentinel, noneSentinel);
    }
  }

  /** Stopping inside a prefix is stopping inside the whole history. */
  lemma StopsAtExtends(turns: seq<Turn>, k: int, r: Rendering, lowSentinel: string, noneSentinel: string)
    requires AllWellFormed(turns) && |turns| > 0
    requires AllWellFormed(turns[..|turns| - 1])
    requires StopsAt(turns[..|turns| - 1], k, r, lowSentinel, noneSentinel)
    ensures StopsAt(turns, k, r, lowSentinel, noneSentinel)
  {
    var init := turns[..|turns| - 1];
    assert init[..k + 1] == turns[..k + 1];
    assert forall j :: 0 <= j <= k ==> init[j] == turns[j];
  }

  /** A history shown in full up to its last turn stops at that turn when it fails. */
  lemma StopsAtLast(turns: seq<Turn>, lowSentinel: string, noneSentinel: string)
    requires AllWellFormed(turns) && |turns| > 0
    requires AllWellFormed(turns[..|turns| - 1])
    requires Replay(turns[..|turns| - 1], lowSentinel, noneSentinel).outcome == Shown
    ensures StopsAt(turns, |turns| - 1, Replay(turns, lowSentinel, noneSentinel), lowSentinel, noneSentinel)
  {
    var init, k := turns[..|turns| - 1], |turns| - 1;
    ShownIffEveryTurnShown(init, lowSentinel, noneSentinel);
    MessagesFollowTurns(init, lowSentinel, noneSentinel);
    SpeakersStep(turns, lowSentinel, noneSentinel);
    SpeakersOfSnoc(turns);
    assert turns[..k + 1] == turns;
    assert forall j :: 0 <= j < k ==> init[j] == turns[j];
  }

  lemma SpeakersOfSnoc(turns: seq<Turn>)
    requires |turns| > 0
    ensures SpeakersOf(turns) == SpeakersOf(turns[..|turns| - 1]) + [SpeakerOf(turns[|turns| - 1])]
  {
  }

  lemma PrefixExtends(a: seq<Speaker>, b: seq<Speaker>, c: seq<Speaker>)
    requires a <= b
    ensures a <= b + c
  {
  }

  /** After a prefix that was shown in full, the next turn adds its speaker. */
  lemma SpeakersStep(turns: seq<Turn>, lowSentinel: string, noneSentinel: string)
    requires AllWellFormed(turns) && |turns| > 0
    requires Replay(turns[..|turns| - 1], lowSentinel, noneSentinel).outcome.Shown?
    ensures Speakers(Replay(turns, lowSentinel, noneSentinel).blocks)
            == Speakers(Replay(turns[..|turns| - 1], lowSentinel, noneSentinel).blocks) + [SpeakerOf(turns[|turns| - 1])]
  {
    var before := Replay(turns[..|turns| - 1], lowSentinel, noneSentinel);
    var last := turns[|turns| - 1];
    var out := TurnOutput(last, lowSentinel, noneSentinel);
    SpeakersConcat(before.blocks, out.blocks);
    OneMessagePerTurn(last, lowSentinel, noneSentinel);
  }


}

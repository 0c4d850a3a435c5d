/**
 Packing history turns into Webex messages (wxcd-render/src/lib.rs, `render_history_messages`). Lengths
 are counted in UTF-8 bytes and truncation in characters, as in the source.
 */
module HistoryMessages {
  import opened Wrappers

  const MESSAGE_LIMIT := 3500
  const TURN_TEXT_LIMIT := 1200

  datatype HistoryTurn = HistoryTurn(user: string, assistant: Option<string>)

  function Width(c: char): nat {
    if c as int < 0x80 then 1 else if c as int < 0x800 then 2 else if c as int < 0x1_0000 then 3 else 4
  }

  /** `str::len`. */
  function ByteLen(s: string): nat {
    if s == "" then 0 else Width(s[0]) + ByteLen(s[1..])
  }

  function Decimal(n: nat): string {
    if n < 10 then ["0123456789"[n]] else Decimal(n / 10) + ["0123456789"[n % 10]]
  }

  function TruncateChars(text: string, limit: nat): string {
    if |text| > limit then text[..limit] + "..." else text
  }

  function FormatHistoryTurn(index: nat, user: string, assistant: Option<string>): (section: string)
    ensures section != ""
  {
    "Turn " + Decimal(index) + "\nUser:\n" + user + "\n\nAssistant:\n" + assistant.GetOr("No final answer captured.")
  }

  function Section(index: nat, turn: HistoryTurn): (section: string)
    ensures section != ""
  {
    FormatHistoryTurn(index, TruncateChars(turn.user, TURN_TEXT_LIMIT),
                      match turn.assistant
                      case Some(text) => Some(TruncateChars(text, TURN_TEXT_LIMIT))
                      case None => None)
  }

  function Sections(start: nat, turns: seq<HistoryTurn>): seq<string> {
    seq(|turns|, i requires 0 <= i < |turns| => Section(start + i, turns[i]))
  }

  /** Joined by blank lines. */
  function Join(parts: seq<string>): string {
    if parts == [] then ""
    else if |parts| == 1 then parts[0]
    else Join(parts[..|parts| - 1]) + "\n\n" + parts[|parts| - 1]
  }

  function Flatten(groups: seq<seq<string>>): seq<string> {
    if groups == [] then [] else groups[0] + Flatten(groups[1..])
  }

  function Joined(groups: seq<seq<string>>): seq<string> {
    seq(|groups|, i requires 0 <= i < |groups| => Join(groups[i]))
  }

  /** What one message may hold: a single section of any length, or sections within the limit. */
  predicate Fits(group: seq<string>) {
    |group| == 1 || (group != [] && ByteLen(Join(group)) <= MESSAGE_LIMIT)
  }

  predicate Within(groups: seq<seq<string>>, limit: nat) {
    forall k :: 0 <= k < |groups| ==> |groups[k]| == 1 || ByteLen(Join(groups[k])) <= limit
  }

  ghost predicate IsSplit(groups: seq<seq<string>>, sections: seq<string>) {
    Flatten(groups) == sections && forall k :: 0 <= k < |groups| ==> Fits(groups[k])
  }

  /** No group could have taken the next group's first section as well. */
  ghost predicate Greedy(groups: seq<seq<string>>) {
    forall k :: 0 <= k < |groups| - 1 && groups[k + 1] != [] ==>
      ByteLen(Join(groups[k] + [groups[k + 1][0]])) > MESSAGE_LIMIT
  }

  // ---- What a section shows ----

  /** How many code points fit in `k` bytes of UTF-8: seven bits in one byte, else five bits more per byte and one. */
  function Capacity(k: nat): nat
    requires 1 <= k <= 4
  {
    if k == 1 then 0x80 else if k == 2 then 0x800 else 32 * Capacity(k - 1)
  }

  /** A character takes the fewest bytes that hold it. */
  lemma WidthIsLeast(c: char)
    ensures 1 <= Width(c) <= 4 && c as int < Capacity(Width(c))
    ensures Width(c) > 1 ==> c as int >= Capacity(Width(c) - 1)
  {
    assert Capacity(3) == 32 * Capacity(2) && Capacity(4) == 32 * Capacity(3);
  }

  function DigitValue(c: char): int {
    c as int - '0' as int
  }

  function FromDecimal(s: string): int {
    if s == "" then 0 else 10 * FromDecimal(s[..|s| - 1]) + DigitValue(s[|s| - 1])
  }

  lemma DigitReadsBack(n: nat)
    requires n < 10
    ensures DigitValue("0123456789"[n]) == n
  {
  }

  /** The number shown reads back. */
  lemma {:induction false} DecimalReadsBack(n: nat)
    ensures FromDecimal(Decimal(n)) == n
    ensures forall i :: 0 <= i < |Decimal(n)| ==> 0 <= DigitValue(Decimal(n)[i]) <= 9
  {
    if n < 10 {
      DigitReadsBack(n);
      assert Decimal(n)[..0] == "";
      assert FromDecimal("") == 0;
    } else {
      DecimalReadsBack(n / 10);
      AppendDigit(Decimal(n / 10), n % 10);
    }
  }

  lemma AppendDigit(s: string, n: nat)
    requires n < 10
    ensures FromDecimal(s + ["0123456789"[n]]) == 10 * FromDecimal(s) + n
    ensures 0 <= DigitValue("0123456789"[n]) <= 9
  {
    DigitReadsBack(n);
    var c := "0123456789"[n];
    assert (s + [c])[..|s + [c]| - 1] == s;
  }

  /** Up to the limit a text is shown as it is, beyond it as its first characters and an ellipsis. */
  lemma TruncatesExactly(text: string, limit: nat)
    ensures |text| <= limit ==> TruncateChars(text, limit) == text
    ensures |text| > limit ==>
              var shown := TruncateChars(text, limit);
              |shown| == limit + 3 && shown[..limit] <= text && shown[limit..] == "..."
  {
  }

  function Answer(turn: HistoryTurn): string {
    match turn.assistant
    case Some(text) => TruncateChars(text, TURN_TEXT_LIMIT)
    case None => "No final answer captured."
  }

  /** A section begins with its turn's number and user text, and ends with its answer. */
  lemma SectionShowsTurn(index: nat, turn: HistoryTurn)
    ensures "Turn " + Decimal(index) + "\nUser:\n" + TruncateChars(turn.user, TURN_TEXT_LIMIT) <= Section(index, turn)
    ensures var section, end := Section(index, turn), "\n\nAssistant:\n" + Answer(turn);
            |end| <= |section| && section[|section| - |end|..] == end
  {
    var head := "Turn " + Decimal(index) + "\nUser:\n" + TruncateChars(turn.user, TURN_TEXT_LIMIT);
    assert Section(index, turn) == head + ("\n\nAssistant:\n" + Answer(turn));
  }

  /** There is one section a turn, in order, numbered from `start` on. */
  lemma SectionsAreNumbered(start: nat, turns: seq<HistoryTurn>, i: nat)
    requires i < |turns|
    ensures |Sections(start, turns)| == |turns|
    ensures "Turn " + Decimal(start + i) + "\nUser:\n" + TruncateChars(turns[i].user, TURN_TEXT_LIMIT)
            <= Sections(start, turns)[i]
  {
    SectionShowsTurn(start + i, turns[i]);
  }

  // ---- Lengths ----

  lemma {:induction false} ByteLenConcat(a: string, b: string)
    ensures ByteLen(a + b) == ByteLen(a) + ByteLen(b)
  {
    if a == "" {
      assert a + b == b;
    } else {
      assert (a + b)[1..] == a[1..] + b;
      ByteLenConcat(a[1..], b);
    }
  }

  lemma {:induction false} JoinConcat(a: seq<string>, b: seq<string>)
    requires a != [] && b != []
    ensures Join(a + b) == Join(a) + "\n\n" + Join(b)
  {
    var init := (a + b)[..|a + b| - 1];
    if |b| == 1 {
      assert init == a;
    } else {
      assert init == a + b[..|b| - 1];
      JoinConcat(a, b[..|b| - 1]);
      assert Join(a) + "\n\n" + Join(b[..|b| - 1]) + "\n\n" + b[|b| - 1]
          == Join(a) + "\n\n" + (Join(b[..|b| - 1]) + "\n\n" + b[|b| - 1]);
    }
  }

  lemma JoinedLength(a: seq<string>, b: seq<string>)
    requires a != [] && b != []
    ensures ByteLen(Join(a + b)) == ByteLen(Join(a)) + 2 + ByteLen(Join(b))
  {
    JoinConcat(a, b);
    ByteLenConcat(Join(a) + "\n\n", Join(b));
    ByteLenConcat(Join(a), "\n\n");
    assert ByteLen("\n\n") == 2 by {
      assert "\n\n"[1..] == "\n" && "\n"[1..] == "";
    }
  }

  lemma PartsAreShorter(a: seq<string>, b: seq<string>)
    ensures ByteLen(Join(a)) <= ByteLen(Join(a + b))
    ensures ByteLen(Join(b)) <= ByteLen(Join(a + b))
  {
    if a == [] {
      assert a + b == b;
    } else if b == [] {
      assert a + b == a;
    } else {
      JoinedLength(a, b);
    }
  }

  lemma {:induction false} FlattenAppend(groups: seq<seq<string>>, g: seq<string>)
    ensures Flatten(groups + [g]) == Flatten(groups) + g
  {
    if groups == [] {
      assert groups + [g] == [g] && [g][1..] == [];
    } else {
      assert (groups + [g])[1..] == groups[1..] + [g];
      FlattenAppend(groups[1..], g);
    }
  }

  lemma {:induction false} JoinIsLossless(groups: seq<seq<string>>)
    requires forall k :: 0 <= k < |groups| ==> groups[k] != []
    ensures Join(Joined(groups)) == Join(Flatten(groups))
  {
    if groups != [] {
      var init, last := groups[..|groups| - 1], groups[|groups| - 1];
      assert groups == init + [last];
      FlattenAppend(init, last);
      JoinIsLossless(init);
      assert Joined(groups)[..|groups| - 1] == Joined(init);
      if init == [] {
        assert Flatten(init) + last == last;
      } else {
        assert init[0] != [];
        JoinConcat(Flatten(init), last);
      }
    }
  }

  // ---- Greedy packing is optimal ----

  /** A piece of a message that starts where a greedy group starts is no longer than that group. */
  lemma GroupReachesAsFar(gs: seq<seq<string>>, x: seq<string>, y: seq<string>, z: seq<string>)
    requires gs != [] && (forall k :: 0 <= k < |gs| ==> gs[k] != []) && Greedy(gs)
    requires Fits(x + y) && y != [] && Flatten(gs) == y + z
    ensures |y| <= |gs[0]|
  {
    var g, more := gs[0], Flatten(gs[1..]);
    assert |gs| == 1 ==> gs[1..] == [] && more == [];
    if |y| > |g| {
      var next := gs[1][0];
      assert gs[1..][0] == gs[1];
      assert more[0] == next;
      assert y[|g|] == (y + z)[|g|] == (g + more)[|g|];
      assert y[..|g|] == (y + z)[..|g|] == (g + more)[..|g|] == g;
      assert y == (g + [next]) + y[|g| + 1..];
      PartsAreShorter(g + [next], y[|g| + 1..]);
      PartsAreShorter(x, y);
    }
  }

  lemma ConcatSplit<T>(h: seq<T>, rest: seq<T>, x: seq<T>, more: seq<T>)
    requires h + rest == x + more && |h| <= |x|
    ensures rest == x[|h|..] + more && x == h + x[|h|..]
  {
    assert rest == (h + rest)[|h|..];
    assert h == (x + more)[..|h|];
  }

  /** Greedy stays ahead: it needs no more groups for what is left than any split needs for at least as much. */
  lemma {:induction false} GreedyStaysAhead(gs: seq<seq<string>>, hs: seq<seq<string>>, x: seq<string>)
    requires (forall k :: 0 <= k < |gs| ==> gs[k] != []) && Greedy(gs)
    requires forall k :: 0 <= k < |hs| ==> Fits(hs[k])
    requires Flatten(hs) == x + Flatten(gs)
    ensures |gs| <= |hs|
    decreases |hs|
  {
    if gs != [] {
      assert Flatten(gs)[0] == gs[0][0];
      assert hs != [];
      var h, rest := hs[0], Flatten(hs[1..]);
      if |h| <= |x| {
        ConcatSplit(h, rest, x, Flatten(gs));
        GreedyStaysAhead(gs, hs[1..], x[|h|..]);
      } else {
        var y := h[|x|..];
        ConcatSplit(x, Flatten(gs), h, rest);
        GroupReachesAsFar(gs, x, y, rest);
        ConcatSplit(y, rest, gs[0], Flatten(gs[1..]));
        GreedyTail(gs);
        GreedyStaysAhead(gs[1..], hs[1..], gs[0][|y|..]);
      }
    }
  }

  lemma GreedyTail(gs: seq<seq<string>>)
    requires gs != [] && Greedy(gs)
    ensures Greedy(gs[1..])
  {
    forall k | 0 <= k < |gs[1..]| - 1 && gs[1..][k + 1] != []
      ensures ByteLen(Join(gs[1..][k] + [gs[1..][k + 1][0]])) > MESSAGE_LIMIT
    {
      assert gs[1..][k] == gs[k + 1] && gs[1..][k + 1] == gs[k + 2];
    }
  }

  /** No order-preserving split of the sections needs fewer messages than a greedy one. */
  lemma GreedyIsOptimal(gs: seq<seq<string>>, hs: seq<seq<string>>, sections: seq<string>)
    requires IsSplit(gs, sections) && Greedy(gs) && IsSplit(hs, sections)
    ensures |gs| <= |hs|
  {
    assert [] + Flatten(gs) == Flatten(hs);
    GreedyStaysAhead(gs, hs, []);
  }

  // ---- The loop ----

  lemma Extended(groups: seq<seq<string>>, current: seq<string>, section: string)
    requires current != []
    requires Greedy(groups + [current])
    ensures Greedy(groups + [current + [section]])
    ensures ByteLen(Join(current + [section])) > MESSAGE_LIMIT ==> Greedy(groups + [current] + [[section]])
  {
    var old', new' := groups + [current], groups + [current + [section]];
    forall k | 0 <= k < |new'| - 1 && new'[k + 1] != []
      ensures ByteLen(Join(new'[k] + [new'[k + 1][0]])) > MESSAGE_LIMIT
    {
      assert old'[k] == new'[k] && old'[k + 1] != [] && old'[k + 1][0] == new'[k + 1][0];
    }
    var two := groups + [current] + [[section]];
    if ByteLen(Join(current + [section])) > MESSAGE_LIMIT {
      forall k | 0 <= k < |two| - 1 && two[k + 1] != []
        ensures ByteLen(Join(two[k] + [two[k + 1][0]])) > MESSAGE_LIMIT
      {
        if k < |groups| {
          assert old'[k] == two[k] && old'[k + 1] == two[k + 1];
        }
      }
    }
  }

  ghost predicate Packed(groups: seq<seq<string>>, sections: seq<string>) {
    IsSplit(groups, sections) && Greedy(groups)
  }

  /** The closed messages, the sections in each, and the sections of the message still open. */
  datatype Pack = Pack(body: seq<string>, groups: seq<seq<string>>, group: seq<string>)

  /** The loop between two turns. */
  ghost predicate Packing(p: Pack, current: string, sections: seq<string>) {
    && p.body == Joined(p.groups) && current == Join(p.group)
    && (current == "" <==> p.group == [])
    && (if p.group == [] then p.groups == [] && sections == [] else Packed(p.groups + [p.group], sections))
  }

  lemma PackingFirst(section: string)
    requires section != ""
    ensures Packing(Pack([], [], [section]), section, [section])
  {
    assert [] + [[section]] == [[section]] && [[section]][1..] == [];
    assert Flatten([[section]]) == [section];
  }

  lemma PackedAppend(groups: seq<seq<string>>, group: seq<string>, sections: seq<string>, section: string)
    requires group != [] && Packed(groups + [group], sections)
    ensures ByteLen(Join(group + [section])) <= MESSAGE_LIMIT ==>
              Packed(groups + [group + [section]], sections + [section])
    ensures ByteLen(Join(group + [section])) > MESSAGE_LIMIT ==>
              Packed(groups + [group] + [[section]], sections + [section])
  {
    Extended(groups, group, section);
    FlattenAppend(groups, group);
    FlattenAppend(groups, group + [section]);
    FlattenAppend(groups + [group], [section]);
    assert Flatten(groups) + (group + [section]) == sections + [section];
    var before := groups + [group];
    assert forall k :: 0 <= k < |groups| ==> groups[k] == before[k];
  }

  lemma JoinedAppend(groups: seq<seq<string>>, group: seq<string>)
    ensures Joined(groups + [group]) == Joined(groups) + [Join(group)]
  {
  }

  lemma PackingNext(p: Pack, current: string, sections: seq<string>, section: string)
    requires Packing(p, current, sections) && current != "" && section != ""
    ensures if ByteLen(current) + 2 + ByteLen(section) > MESSAGE_LIMIT
            then Packing(Pack(p.body + [current], p.groups + [p.group], [section]), section, sections + [section])
            else Packing(p.(group := p.group + [section]), current + "\n\n" + section, sections + [section])
  {
    JoinedLength(p.group, [section]);
    JoinConcat(p.group, [section]);
    JoinedAppend(p.groups, p.group);
    PackedAppend(p.groups, p.group, sections, section);
  }

  /** `body` loses no section, is a split of them, and no other split needs fewer messages. */
  ghost predicate BestPacking(body: seq<string>, sections: seq<string>) {
    && Join(body) == Join(sections)
    && (exists groups :: IsSplit(groups, sections) && body == Joined(groups) && Within(groups, 3500))
    && (forall hs :: IsSplit(hs, sections) ==> |body| <= |hs|)
  }

  lemma PackedIsBest(body: seq<string>, groups: seq<seq<string>>, sections: seq<string>)
    requires body == Joined(groups) && Packed(groups, sections)
    ensures BestPacking(body, sections)
  {
    JoinIsLossless(groups);
    forall hs | IsSplit(hs, sections) ensures |body| <= |hs| {
      GreedyIsOptimal(groups, hs, sections);
    }
  }

  lemma PackingClosed(header: string, messages: seq<string>, p: Pack, current: string, sections: seq<string>)
    requires Packing(p, current, sections)
    requires messages == [header] + p.body + (if current == "" then [] else [current])
    ensures BestPacking(messages[1..], sections)
  {
    if current == "" {
      NothingIsBest(messages[1..], sections);
    } else {
      JoinedAppend(p.groups, p.group);
      assert messages[1..] == p.body + [current];
      PackedIsBest(messages[1..], p.groups + [p.group], sections);
    }
  }

  lemma NothingIsBest(body: seq<string>, sections: seq<string>)
    requires body == [] && sections == []
    ensures BestPacking(body, sections)
  {
    assert Flatten([]) == [] && Joined([]) == [];
    PackedIsBest(body, [], sections);
  }

  /**
   The body messages lose nothing, each is a single section or within the limit, and no other
   order-preserving split under that rule needs fewer.
   */
  method RenderHistoryMessages(header: string, start: nat, turns: seq<HistoryTurn>) returns (messages: seq<string>)
    ensures |messages| > 0 && messages[0] == header
    ensures BestPacking(messages[1..], Sections(start, turns))
  {
    ghost var sections, pack := Sections(start, turns), Pack([], [], []);
    messages := [header];
    var current := "";
    for offset := 0 to |turns|
      invariant messages == [header] + pack.body
      invariant Packing(pack, current, sections[..offset])
    {
      var section := RenderSection(start, turns, offset);
      messages, current, pack := AddSection(header, messages, current, section, pack, sections[..offset]);
    }
    assert sections[..|turns|] == sections;
    if current != "" {
      messages := messages + [current];
    }
    PackingClosed(header, messages, pack, current, sections);
  }

  method RenderSection(start: nat, turns: seq<HistoryTurn>, offset: nat) returns (section: string)
    requires offset < |turns|
    ensures section != ""
    ensures Sections(start, turns)[..offset + 1] == Sections(start, turns)[..offset] + [section]
  {
    section := Section(start + offset, turns[offset]);
  }

  /** One turn of that loop. */
  method AddSection(header: string, messages: seq<string>, current: string, section: string, ghost pack: Pack,
                    ghost sections: seq<string>)
    returns (messages': seq<string>, current': string, ghost pack': Pack)
    requires section != "" && messages == [header] + pack.body && Packing(pack, current, sections)
    ensures messages' == [header] + pack'.body && Packing(pack', current', sections + [section])
  {
    messages', current' := messages, current;
    if current == "" {
      PackingFirst(section);
      pack' := Pack([], [], [section]);
      current' := section;
    } else {
      PackingNext(pack, current, sections, section);
      if ByteLen(current) + 2 + ByteLen(section) > MESSAGE_LIMIT {
        messages' := messages + [current];
        pack' := Pack(pack.body + [current], pack.groups + [pack.group], [section]);
        current' := section;
      } else {
        current' := current + "\n\n";
        current' := current' + section;
        pack' := pack.(group := pack.group + [section]);
      }
    }
  }
}

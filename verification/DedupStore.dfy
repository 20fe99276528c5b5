/** Elision of repeated large message blocks inside one request, and its inverse. */
module DedupStore {
  import opened Options
  import opened Text

  const STUB_PREFIX := "[deduplicated: see block #"
  const STUB_SUFFIX := " above]"

  datatype Content<O> = Words(text: string) | Other(value: O)

  /** A message: its content, and every other key of the dictionary. */
  datatype Message<O> = Message(content: Content<O>, rest: O)

  function Stub(k: nat): string {
    STUB_PREFIX + Decimal(k) + STUB_SUFFIX
  }

  predicate IsStub(s: string) {
    STUB_PREFIX <= s
  }

  /** The content counts as a block: text, not a stub, and not below the floor. */
  predicate IsBlock<O>(m: Message<O>, tokens: string -> nat, floor: nat) {
    m.content.Words? && !IsStub(m.content.text) && tokens(m.content.text) >= floor
  }

  /** The loop's variables: block numbers by content hash, their count, the
      messages written and the tokens saved. */
  datatype State<O> = State(seen: map<string, nat>, count: nat, out: seq<Message<O>>, saved: nat)

  function Next<O>(st: State<O>, m: Message<O>, hash: string -> string, tokens: string -> nat, floor: nat): State<O> {
    if !IsBlock(m, tokens, floor) then
      st.(out := st.out + [m])
    else
      var text := m.content.text;
      var h := hash(text);
      if h !in st.seen then
        State(st.seen[h := st.count + 1], st.count + 1, st.out + [m], st.saved)
      else
        var stub := Stub(st.seen[h]);
        State(st.seen, st.count, st.out + [m.(content := Words(stub))],
              st.saved + if tokens(text) > tokens(stub) then tokens(text) - tokens(stub) else 0)
  }

  function Elided<O>(ms: seq<Message<O>>, hash: string -> string, tokens: string -> nat, floor: nat): State<O> {
    if ms == [] then State(map[], 0, [], 0)
    else Next(Elided(ms[..|ms| - 1], hash, tokens, floor), ms[|ms| - 1], hash, tokens, floor)
  }

  predicate HasKey<E>(entries: seq<E>, key: E -> string, k: string) {
    exists i :: 0 <= i < |entries| && key(entries[i]) == k
  }

  /** Entries whose key has not been seen before, in order. */
  function FirstOf<E>(entries: seq<E>, key: E -> string): seq<E> {
    if entries == [] then []
    else
      var front, last := entries[..|entries| - 1], entries[|entries| - 1];
      var kept := FirstOf(front, key);
      if HasKey(kept, key, key(last)) then kept else kept + [last]
  }

  lemma {:induction false} HasKeyAppend<E>(entries: seq<E>, e: E, key: E -> string)
    ensures forall k :: HasKey(entries + [e], key, k) <==> HasKey(entries, key, k) || key(e) == k
  {
    var more := entries + [e];
    assert more[|entries|] == e;
    assert forall i :: 0 <= i < |entries| ==> more[i] == entries[i];
  }

  /** An absent list stays absent. */
  method DedupEntryList<E>(list: Option<seq<E>>, key: E -> string) returns (r: Option<seq<E>>)
    ensures r == if list.None? then None else Some(FirstOf(list.value, key))
  {
    if list.None? {
      return None;
    }
    var entries := list.value;
    var seen: set<string> := {};
    var result: seq<E> := [];
    for i := 0 to |entries|
      invariant result == FirstOf(entries[..i], key)
      invariant forall k :: k in seen <==> HasKey(result, key, k)
    {
      assert entries[..i + 1][..i] == entries[..i];
      var k := key(entries[i]);
      if k in seen {
        continue;
      }
      HasKeyAppend(result, entries[i], key);
      seen := seen + {k};
      result := result + [entries[i]];
    }
    assert entries[..|entries|] == entries;
    return Some(result);
  }

  /** A system prompt is a list of blocks, or something else, or absent. */
  datatype System<O> = Blocks(list: seq<O>) | Single(value: Option<O>)

  method ElideIntraRequest<O>(ms: seq<Message<O>>, tools: Option<seq<O>>, system: System<O>, hash: string -> string,
                              tokens: string -> nat, floor: nat, key: O -> string)
    returns (out: seq<Message<O>>, newTools: Option<seq<O>>, newSystem: System<O>, saved: nat)
    ensures out == Elided(ms, hash, tokens, floor).out
    ensures saved == Elided(ms, hash, tokens, floor).saved
    ensures newTools == if tools.None? then None else Some(FirstOf(tools.value, key))
    ensures newSystem == if system.Blocks? then Blocks(FirstOf(system.list, key)) else system
  {
    saved := 0;
    var seen: map<string, nat> := map[];
    out := [];
    var counter: nat := 0;
    for i := 0 to |ms|
      invariant State(seen, counter, out, saved) == Elided(ms[..i], hash, tokens, floor)
    {
      assert ms[..i + 1][..i] == ms[..i];
      var m := ms[i];
      if !m.content.Words? || IsStub(m.content.text) {
        out := out + [m];
        continue;
      }
      var n := tokens(m.content.text);
      if n < floor {
        out := out + [m];
        continue;
      }
      var h := hash(m.content.text);
      if h !in seen {
        counter := counter + 1;
        seen := seen[h := counter];
        out := out + [m];
        continue;
      }
      var stub := Stub(seen[h]);
      var s := tokens(stub);
      saved := saved + if n > s then n - s else 0;
      out := out + [m.(content := Words(stub))];
    }
    assert ms[..|ms|] == ms;
    newTools := DedupEntryList(tools, key);
    newSystem := system;
    if system.Blocks? {
      var kept := DedupEntryList(Some(system.list), key);
      newSystem := Blocks(kept.value);
    }
  }

  // ---- reading stubs back

  /** The block number in a stub. */
  function BlockNumber(s: string): nat {
    if |s| < |STUB_PREFIX| + |STUB_SUFFIX| then 0
    else Value(s[|STUB_PREFIX|..|s| - |STUB_SUFFIX|])
  }

  datatype Expansion<O> = Expansion(blocks: seq<string>, out: seq<Message<O>>)

  /** The reader's side: keep the blocks met so far, in order of first
      appearance, and replace each stub by the block it names. */
  function Restore<O>(e: Expansion<O>, m: Message<O>, tokens: string -> nat, floor: nat): Expansion<O> {
    if m.content.Words? && IsStub(m.content.text) then
      var k := BlockNumber(m.content.text);
      if 1 <= k <= |e.blocks| then Expansion(e.blocks, e.out + [m.(content := Words(e.blocks[k - 1]))])
      else Expansion(e.blocks, e.out + [m])
    else if IsBlock(m, tokens, floor) && m.content.text !in e.blocks then
      Expansion(e.blocks + [m.content.text], e.out + [m])
    else Expansion(e.blocks, e.out + [m])
  }

  function Expanded<O>(ms: seq<Message<O>>, tokens: string -> nat, floor: nat): Expansion<O> {
    if ms == [] then Expansion([], [])
    else Restore(Expanded(ms[..|ms| - 1], tokens, floor), ms[|ms| - 1], tokens, floor)
  }

  lemma {:induction false} StubReadsBack(k: nat)
    ensures IsStub(Stub(k)) && BlockNumber(Stub(k)) == k
  {
    DecimalReadsBack(k);
    var s := Stub(k);
    assert s[|STUB_PREFIX|..|s| - |STUB_SUFFIX|] == Decimal(k);
  }

  ghost predicate Injective(hash: string -> string) {
    forall a, b :: hash(a) == hash(b) ==> a == b
  }

  /** The message already reads like a reference to one of the first `count` blocks. */
  predicate NamesBlock<O>(m: Message<O>, count: nat) {
    m.content.Words? && IsStub(m.content.text) && 1 <= BlockNumber(m.content.text) <= count
  }

  /** The different blocks among the messages. */
  function BlockTexts<O>(ms: seq<Message<O>>, tokens: string -> nat, floor: nat): set<string> {
    set i | 0 <= i < |ms| && IsBlock(ms[i], tokens, floor) :: ms[i].content.text
  }

  /** No input message reads like a reference to a block that precedes it. */
  predicate NoneReadsAsReference<O>(ms: seq<Message<O>>, tokens: string -> nat, floor: nat) {
    forall i :: 0 <= i < |ms| ==> !NamesBlock(ms[i], |BlockTexts(ms[..i], tokens, floor)|)
  }

  lemma {:induction false} BlockTextsStep<O>(ms: seq<Message<O>>, tokens: string -> nat, floor: nat)
    requires ms != []
    ensures var m := ms[|ms| - 1];
            BlockTexts(ms, tokens, floor) ==
            BlockTexts(ms[..|ms| - 1], tokens, floor) + if IsBlock(m, tokens, floor) then {m.content.text} else {}
  {}

  lemma {:induction false} ReferenceStep<O>(ms: seq<Message<O>>, tokens: string -> nat, floor: nat)
    requires ms != []
    ensures var n := |ms| - 1;
            NoneReadsAsReference(ms, tokens, floor) <==>
            NoneReadsAsReference(ms[..n], tokens, floor) && !NamesBlock(ms[n], |BlockTexts(ms[..n], tokens, floor)|)
  {
    var n := |ms| - 1;
    assert forall i :: 0 <= i < n ==> ms[..n][i] == ms[i] && ms[..n][..i] == ms[..i];
  }

  /** The blocks are numbered by the different texts seen. */
  lemma {:induction false} CountIsDistinct<O>(ms: seq<Message<O>>, hash: string -> string, tokens: string -> nat,
                                              floor: nat)
    requires Injective(hash)
    ensures var st, texts := Elided(ms, hash, tokens, floor), BlockTexts(ms, tokens, floor);
            st.count == |texts| && forall t :: hash(t) in st.seen <==> t in texts
  {
    if ms != [] {
      CountIsDistinct(ms[..|ms| - 1], hash, tokens, floor);
      BlockTextsStep(ms, tokens, floor);
    }
  }

  /** `seen` numbers exactly the blocks met so far, none of which is a stub. */
  ghost predicate Numbers(seen: map<string, nat>, count: nat, blocks: seq<string>, hash: string -> string) {
    && count == |blocks| && (forall k :: 0 <= k < |blocks| ==> !IsStub(blocks[k]))
    && (forall k :: 0 <= k < |blocks| ==> hash(blocks[k]) in seen && seen[hash(blocks[k])] == k + 1)
    && (forall h :: h in seen ==> 1 <= seen[h] <= |blocks| && hash(blocks[seen[h] - 1]) == h)
  }

  /** Elision is undone by expansion exactly when no input message already
      reads as a reference to an earlier block. */
  lemma {:induction false} ElisionIsInvertible<O>(ms: seq<Message<O>>, hash: string -> string,
                                                  tokens: string -> nat, floor: nat)
    requires Injective(hash)
    ensures var st, e := Elided(ms, hash, tokens, floor), Expanded(Elided(ms, hash, tokens, floor).out, tokens, floor);
            && Numbers(st.seen, st.count, e.blocks, hash) && |e.out| == |ms|
            && (e.out == ms <==> NoneReadsAsReference(ms, tokens, floor))
  {
    if ms != [] {
      var front, m := ms[..|ms| - 1], ms[|ms| - 1];
      ElisionIsInvertible(front, hash, tokens, floor);
      CountIsDistinct(front, hash, tokens, floor);
      ReferenceStep(ms, tokens, floor);
      var s, t := Elided(front, hash, tokens, floor), Elided(ms, hash, tokens, floor);
      var e := Expanded(s.out, tokens, floor);
      if IsBlock(m, tokens, floor) {
        ExpandBlock(s, e, m, hash, tokens, floor);
      } else {
        ExpandPassed(s, e, m, hash, tokens, floor);
      }
      assert t.out[..|t.out| - 1] == s.out;
      assert Expanded(t.out, tokens, floor) == Restore(e, t.out[|s.out|], tokens, floor);
      AppendEqual(e.out, Restore(e, t.out[|s.out|], tokens, floor).out[|e.out|], ms);
    }
  }

  /** Without stub-prefixed content in the input the messages are restored. */
  lemma {:induction false} RestoredWithoutStubs<O>(ms: seq<Message<O>>, hash: string -> string,
                                                   tokens: string -> nat, floor: nat)
    requires Injective(hash) && forall i :: 0 <= i < |ms| && ms[i].content.Words? ==> !IsStub(ms[i].content.text)
    ensures Expanded(Elided(ms, hash, tokens, floor).out, tokens, floor).out == ms
  {
    ElisionIsInvertible(ms, hash, tokens, floor);
  }

  lemma {:induction false} AppendEqual<T>(a: seq<T>, x: T, b: seq<T>)
    requires |b| == |a| + 1
    ensures a + [x] == b <==> a == b[..|a|] && x == b[|a|]
  {
    assert b == b[..|a|] + [b[|a|]];
    assert (a + [x])[..|a|] == a;
  }

  lemma {:induction false} NumberedIffBlock(seen: map<string, nat>, blocks: seq<string>, hash: string -> string,
                                            text: string)
    requires Injective(hash) && Numbers(seen, |blocks|, blocks, hash)
    ensures hash(text) in seen <==> text in blocks
  {
    if text in blocks {
      var k :| 0 <= k < |blocks| && blocks[k] == text;
      assert hash(blocks[k]) in seen;
    }
  }

  lemma {:induction false} NumbersGrow(seen: map<string, nat>, blocks: seq<string>, hash: string -> string,
                                       text: string)
    requires Numbers(seen, |blocks|, blocks, hash) && hash(text) !in seen && !IsStub(text)
    ensures Numbers(seen[hash(text) := |blocks| + 1], |blocks| + 1, blocks + [text], hash)
  {
    BlocksNumbered(seen, blocks, hash, text);
    NumbersNameBlocks(seen, blocks, hash, text);
    assert forall k :: 0 <= k < |blocks| ==> (blocks + [text])[k] == blocks[k];
  }

  lemma {:induction false} BlocksNumbered(seen: map<string, nat>, blocks: seq<string>, hash: string -> string,
                                          text: string)
    requires Numbers(seen, |blocks|, blocks, hash) && hash(text) !in seen
    ensures var grown, more := seen[hash(text) := |blocks| + 1], blocks + [text];
            forall k :: 0 <= k < |more| ==> hash(more[k]) in grown && grown[hash(more[k])] == k + 1
  {
    var more := blocks + [text];
    forall k | 0 <= k < |blocks| ensures more[k] == blocks[k] && hash(blocks[k]) in seen {
    }
  }

  lemma {:induction false} NumbersNameBlocks(seen: map<string, nat>, blocks: seq<string>, hash: string -> string,
                                             text: string)
    requires Numbers(seen, |blocks|, blocks, hash) && hash(text) !in seen
    ensures var grown, more := seen[hash(text) := |blocks| + 1], blocks + [text];
            forall h :: h in grown ==> 1 <= grown[h] <= |more| && hash(more[grown[h] - 1]) == h
  {
    var grown, more := seen[hash(text) := |blocks| + 1], blocks + [text];
    forall h | h in grown ensures 1 <= grown[h] <= |more| && hash(more[grown[h] - 1]) == h {
      if h != hash(text) {
        assert more[seen[h] - 1] == blocks[seen[h] - 1];
      }
    }
  }

  lemma {:induction false} StubText(k: nat)
    ensures Stub(k) == "[deduplicated: see block #" + Decimal(k) + " above]"
    ensures forall s :: IsStub(s) <==> "[deduplicated: see block #" <= s
  {}

  /** One message through elision and expansion. */
  ghost predicate RoundOne<O>(st: State<O>, e: Expansion<O>, m: Message<O>, hash: string -> string,
                              tokens: string -> nat, floor: nat)
  {
    var t := Next(st, m, hash, tokens, floor);
    |t.out| == |st.out| + 1 &&
    var f := Restore(e, t.out[|st.out|], tokens, floor);
    && Numbers(t.seen, t.count, f.blocks, hash)
    && f.out == e.out + [f.out[|f.out| - 1]]
    && (f.out[|f.out| - 1] == m <==> !NamesBlock(m, st.count))
  }

  lemma {:induction false} ExpandBlock<O>(st: State<O>, e: Expansion<O>, m: Message<O>, hash: string -> string,
                       tokens: string -> nat, floor: nat)
    requires Injective(hash) && Numbers(st.seen, st.count, e.blocks, hash) && IsBlock(m, tokens, floor)
    ensures RoundOne(st, e, m, hash, tokens, floor)
  {
    if hash(m.content.text) in st.seen {
      ExpandRepeated(st, e, m, hash, tokens, floor);
    } else {
      NumberedIffBlock(st.seen, e.blocks, hash, m.content.text);
      NumbersGrow(st.seen, e.blocks, hash, m.content.text);
      NextAppends(st, m, hash, tokens, floor);
      assert Next(st, m, hash, tokens, floor).out[|st.out|] == m;
    }
  }

  lemma {:induction false} ExpandRepeated<O>(st: State<O>, e: Expansion<O>, m: Message<O>, hash: string -> string,
                       tokens: string -> nat, floor: nat)
    requires Injective(hash) && Numbers(st.seen, st.count, e.blocks, hash) && IsBlock(m, tokens, floor)
    requires hash(m.content.text) in st.seen
    ensures RoundOne(st, e, m, hash, tokens, floor)
  {
    var k := st.seen[hash(m.content.text)];
    StubReadsBack(k);
    assert e.blocks[k - 1] == m.content.text;
    NextAppends(st, m, hash, tokens, floor);
    assert Next(st, m, hash, tokens, floor).out[|st.out|] == m.(content := Words(Stub(k)));
  }

  lemma {:induction false} ExpandPassed<O>(st: State<O>, e: Expansion<O>, m: Message<O>, hash: string -> string,
                        tokens: string -> nat, floor: nat)
    requires Numbers(st.seen, st.count, e.blocks, hash) && !IsBlock(m, tokens, floor)
    ensures RoundOne(st, e, m, hash, tokens, floor)
  {
    if NamesBlock(m, st.count) {
      assert !IsStub(e.blocks[BlockNumber(m.content.text) - 1]);
    }
  }

  /** Message `j` was kept and is the block of this number. */
  ghost predicate KeptAs<O>(ms: seq<Message<O>>, out: seq<Message<O>>, tokens: string -> nat, floor: nat,
                            j: nat, number: nat)
    requires j < |ms| == |out|
  {
    out[j] == ms[j] && IsBlock(ms[j], tokens, floor) && number == |BlockTexts(ms[..j + 1], tokens, floor)|
  }

  lemma {:induction false} StillKept<O>(ms: seq<Message<O>>, hash: string -> string, tokens: string -> nat, floor: nat,
                                        j: nat, number: nat)
    requires var n := |ms| - 1;
             j < n && |Elided(ms[..n], hash, tokens, floor).out| == n &&
             KeptAs(ms[..n], Elided(ms[..n], hash, tokens, floor).out, tokens, floor, j, number)
    ensures var out := Elided(ms, hash, tokens, floor).out;
            |out| == |ms| && KeptAs(ms, out, tokens, floor, j, number)
  {
    var n := |ms| - 1;
    NextAppends(Elided(ms[..n], hash, tokens, floor), ms[n], hash, tokens, floor);
    assert ms[..n][..j + 1] == ms[..j + 1];
  }

  /** Message `i` had the content of an earlier one that was kept, and its stub
      carries that one's number among the different blocks. */
  ghost predicate RefersBack<O>(ms: seq<Message<O>>, out: seq<Message<O>>, tokens: string -> nat, floor: nat, i: nat)
    requires i < |ms| == |out|
  {
    exists j, k: nat :: 0 <= j < i && KeptAs(ms, out, tokens, floor, j, k) &&
                        ms[j].content == ms[i].content && out[i] == ms[i].(content := Words(Stub(k)))
  }

  /** Every replaced message refers back. */
  lemma {:induction false} StubsReferBack<O>(ms: seq<Message<O>>, hash: string -> string, tokens: string -> nat,
                                             floor: nat, i: nat)
    requires i < |ms| && Injective(hash)
    ensures var out := Elided(ms, hash, tokens, floor).out;
            |out| == |ms| && (out[i] != ms[i] ==> RefersBack(ms, out, tokens, floor, i))
  {
    var n := |ms| - 1;
    var front, st, out := ms[..n], Elided(ms[..n], hash, tokens, floor), Elided(ms, hash, tokens, floor).out;
    SeenWhere(front, hash, tokens, floor);
    if i == n {
      LastRefersBack(ms, hash, tokens, floor);
    } else {
      StubsReferBack(front, hash, tokens, floor, i);
      if out[i] != ms[i] {
        var j, k: nat :| 0 <= j < i && KeptAs(front, st.out, tokens, floor, j, k) &&
                         front[j].content == front[i].content && st.out[i] == front[i].(content := Words(Stub(k)));
        StillKept(ms, hash, tokens, floor, j, k);
      }
    }
  }

  lemma {:induction false} LastRefersBack<O>(ms: seq<Message<O>>, hash: string -> string, tokens: string -> nat,
                                             floor: nat)
    requires ms != [] && Injective(hash)
    ensures var out := Elided(ms, hash, tokens, floor).out;
            |out| == |ms| && (out[|ms| - 1] != ms[|ms| - 1] ==> RefersBack(ms, out, tokens, floor, |ms| - 1))
  {
    var n := |ms| - 1;
    var st, out := Elided(ms[..n], hash, tokens, floor), Elided(ms, hash, tokens, floor).out;
    SeenWhere(ms[..n], hash, tokens, floor);
    if out[n] != ms[n] {
      var h := hash(ms[n].content.text);
      var j: nat :| j < n && KeptAs(ms[..n], st.out, tokens, floor, j, st.seen[h]) &&
                    hash(ms[..n][j].content.text) == h;
      StillKept(ms, hash, tokens, floor, j, st.seen[h]);
    }
  }

  /** The message of hash `h` that was kept and numbered. */
  ghost predicate KeptSomewhere<O>(ms: seq<Message<O>>, out: seq<Message<O>>, hash: string -> string,
                                   tokens: string -> nat, floor: nat, h: string, number: nat)
    requires |ms| == |out|
  {
    exists j: nat :: j < |ms| && KeptAs(ms, out, tokens, floor, j, number) && hash(ms[j].content.text) == h
  }

  lemma {:induction false} SeenWhere<O>(ms: seq<Message<O>>, hash: string -> string, tokens: string -> nat, floor: nat)
    requires Injective(hash)
    ensures var st := Elided(ms, hash, tokens, floor);
            && |st.out| == |ms|
            && forall h :: h in st.seen ==> KeptSomewhere(ms, st.out, hash, tokens, floor, h, st.seen[h])
  {
    if ms != [] {
      var n := |ms| - 1;
      var front := ms[..n];
      SeenWhere(front, hash, tokens, floor);
      CountIsDistinct(ms, hash, tokens, floor);
      var s, t := Elided(front, hash, tokens, floor), Elided(ms, hash, tokens, floor);
      forall h | h in t.seen ensures KeptSomewhere(ms, t.out, hash, tokens, floor, h, t.seen[h]) {
        if h in s.seen {
          var j: nat :| j < n && KeptAs(front, s.out, tokens, floor, j, s.seen[h]) && hash(front[j].content.text) == h;
          StillKept(ms, hash, tokens, floor, j, s.seen[h]);
        } else {
          assert ms[..n + 1] == ms;
          assert KeptAs(ms, t.out, tokens, floor, n, t.seen[h]);
        }
      }
    }
  }

  /** A text not below the floor that does not begin like a stub. */
  predicate Counts<O>(m: Message<O>, tokens: string -> nat, floor: nat) {
    m.content.Words? && !("[deduplicated: see block #" <= m.content.text) && tokens(m.content.text) >= floor
  }

  /** Message `i` is such a text and has the content of an earlier message. */
  predicate Repeats<O(==)>(ms: seq<Message<O>>, tokens: string -> nat, floor: nat, i: nat)
    requires i < |ms|
  {
    Counts(ms[i], tokens, floor) && exists j :: 0 <= j < i && ms[j].content == ms[i].content
  }

  /** The same message with a stub for its content. */
  predicate StubbedFrom<O(==)>(x: Message<O>, m: Message<O>) {
    x.rest == m.rest && x.content.Words? && "[deduplicated: see block #" <= x.content.text
  }

  lemma {:induction false} OutLength<O>(ms: seq<Message<O>>, hash: string -> string, tokens: string -> nat, floor: nat)
    ensures |Elided(ms, hash, tokens, floor).out| == |ms|
  {
    if ms != [] {
      OutLength(ms[..|ms| - 1], hash, tokens, floor);
    }
  }

  lemma {:induction false} RepeatsIffSeen<O>(ms: seq<Message<O>>, tokens: string -> nat, floor: nat)
    requires ms != [] && Counts(ms[|ms| - 1], tokens, floor)
    ensures var n := |ms| - 1;
            Repeats(ms, tokens, floor, n) <==> ms[n].content.text in BlockTexts(ms[..n], tokens, floor)
  {
    var n := |ms| - 1;
    if Repeats(ms, tokens, floor, n) {
      var j :| 0 <= j < n && ms[j].content == ms[n].content;
      assert ms[..n][j] == ms[j] && IsBlock(ms[..n][j], tokens, floor);
    }
  }

  lemma {:induction false} LastIsReplaced<O>(ms: seq<Message<O>>, hash: string -> string, tokens: string -> nat,
                                             floor: nat)
    requires ms != [] && Injective(hash)
    ensures var out, n := Elided(ms, hash, tokens, floor).out, |ms| - 1;
            |out| == |ms| &&
            if Repeats(ms, tokens, floor, n) then StubbedFrom(out[n], ms[n]) else out[n] == ms[n]
  {
    var n := |ms| - 1;
    var front, st := ms[..n], Elided(ms[..n], hash, tokens, floor);
    OutLength(front, hash, tokens, floor);
    CountIsDistinct(front, hash, tokens, floor);
    if Counts(ms[n], tokens, floor) {
      var text := ms[n].content.text;
      RepeatsIffSeen(ms, tokens, floor);
      if hash(text) in st.seen {
        StubText(st.seen[hash(text)]);
      }
    }
  }

  /** Exactly those are replaced that repeat such a text. */
  lemma {:induction false} RepeatsAreReplaced<O>(ms: seq<Message<O>>, hash: string -> string, tokens: string -> nat,
                                                 floor: nat, i: nat)
    requires i < |ms| && Injective(hash)
    ensures var out := Elided(ms, hash, tokens, floor).out;
            |out| == |ms| && if Repeats(ms, tokens, floor, i) then StubbedFrom(out[i], ms[i]) else out[i] == ms[i]
  {
    var n := |ms| - 1;
    var front := ms[..n];
    LastIsReplaced(ms, hash, tokens, floor);
    if i < n {
      OutLength(front, hash, tokens, floor);
      RepeatsAreReplaced(front, hash, tokens, floor, i);
      assert Repeats(front, tokens, floor, i) <==> Repeats(ms, tokens, floor, i);
      NextAppends(Elided(front, hash, tokens, floor), ms[n], hash, tokens, floor);
      assert Elided(ms, hash, tokens, floor).out[i] == Elided(front, hash, tokens, floor).out[i];
    }
  }

  /** Eliding the result again changes nothing and saves nothing. */
  lemma {:induction false} ElidingAgain<O>(ms: seq<Message<O>>, hash: string -> string, tokens: string -> nat,
                                           floor: nat)
    ensures var st := Elided(ms, hash, tokens, floor);
            Elided(st.out, hash, tokens, floor) == State(st.seen, st.count, st.out, 0)
  {
    if ms != [] {
      var front, m := ms[..|ms| - 1], ms[|ms| - 1];
      ElidingAgain(front, hash, tokens, floor);
      var s, t := Elided(front, hash, tokens, floor), Elided(ms, hash, tokens, floor);
      NextAppends(s, m, hash, tokens, floor);
      var x := t.out[|s.out|];
      assert t.out[..|t.out| - 1] == s.out && t.out[|t.out| - 1] == x;
      NextAgain(s, m, hash, tokens, floor);
    }
  }

  lemma {:induction false} NextAppends<O>(st: State<O>, m: Message<O>, hash: string -> string, tokens: string -> nat,
                                          floor: nat)
    ensures var t := Next(st, m, hash, tokens, floor);
            |t.out| == |st.out| + 1 && t.out == st.out + [t.out[|st.out|]]
  {}

  /** What a step writes passes through the same step unchanged. */
  lemma {:induction false} NextAgain<O>(st: State<O>, m: Message<O>, hash: string -> string, tokens: string -> nat,
                                        floor: nat)
    ensures var t := Next(st, m, hash, tokens, floor);
            |t.out| == |st.out| + 1 &&
            Next(State(st.seen, st.count, st.out, 0), t.out[|st.out|], hash, tokens, floor) ==
            State(t.seen, t.count, t.out, 0)
  {
    if IsBlock(m, tokens, floor) && hash(m.content.text) in st.seen {
      StubReadsBack(st.seen[hash(m.content.text)]);
    }
  }

  // ---- savings

  function Cost<O>(m: Message<O>, tokens: string -> nat): nat {
    if m.content.Words? then tokens(m.content.text) else 0
  }

  function TotalCost<O>(ms: seq<Message<O>>, tokens: string -> nat): nat {
    if ms == [] then 0 else TotalCost(ms[..|ms| - 1], tokens) + Cost(ms[|ms| - 1], tokens)
  }

  lemma {:induction false} NumbersAreBlocks<O>(ms: seq<Message<O>>, hash: string -> string, tokens: string -> nat,
                                               floor: nat)
    ensures var st := Elided(ms, hash, tokens, floor);
            st.count <= |ms| && forall h :: h in st.seen ==> 1 <= st.seen[h] <= st.count
  {
    if ms != [] {
      NumbersAreBlocks(ms[..|ms| - 1], hash, tokens, floor);
    }
  }

  /** The savings reported are the tokens gone, if no stub that so many messages
      can call for costs more than the floor. */
  lemma {:induction false} SavingsAreExact<O>(ms: seq<Message<O>>, hash: string -> string, tokens: string -> nat,
                                              floor: nat)
    requires forall k :: 1 <= k <= |ms| ==> tokens(Stub(k)) <= floor
    ensures var st := Elided(ms, hash, tokens, floor);
            TotalCost(st.out, tokens) + st.saved == TotalCost(ms, tokens)
  {
    if ms != [] {
      var front, m := ms[..|ms| - 1], ms[|ms| - 1];
      SavingsAreExact(front, hash, tokens, floor);
      NumbersAreBlocks(front, hash, tokens, floor);
      var s, t := Elided(front, hash, tokens, floor), Elided(ms, hash, tokens, floor);
      assert t.out[..|t.out| - 1] == s.out;
    }
  }

  lemma {:induction false} LongerNumerals(k: nat, n: nat)
    requires k <= n
    ensures |Decimal(k)| <= |Decimal(n)|
    decreases n
  {
    if k >= 10 {
      LongerNumerals(k / 10, n / 10);
    }
  }

  function DefaultCount(s: string): nat { |s| / 4 }

  /** Under the default counter it is enough that the last stub is cheap. */
  lemma {:induction false} DefaultSavingsAreExact<O>(ms: seq<Message<O>>, hash: string -> string, floor: nat)
    requires DefaultCount(Stub(|ms|)) <= floor
    ensures var st := Elided(ms, hash, DefaultCount, floor);
            TotalCost(st.out, DefaultCount) + st.saved == TotalCost(ms, DefaultCount)
  {
    forall k | 1 <= k <= |ms| ensures DefaultCount(Stub(k)) <= floor {
      LongerNumerals(k, |ms|);
    }
    SavingsAreExact(ms, hash, DefaultCount, floor);
  }

  /** The number of a block among the different blocks of the messages. */
  function NumberOf<O>(ms: seq<Message<O>>, text: string, tokens: string -> nat, floor: nat): nat {
    if ms == [] then 0
    else
      var front := ms[..|ms| - 1];
      if text in BlockTexts(front, tokens, floor) then NumberOf(front, text, tokens, floor)
      else |BlockTexts(ms, tokens, floor)|
  }

  /** Message `i` repeats a block, and the stub for it costs no more. */
  predicate CheapIfRepeated<O>(ms: seq<Message<O>>, tokens: string -> nat, floor: nat, i: nat)
    requires i < |ms|
  {
    IsBlock(ms[i], tokens, floor) && ms[i].content.text in BlockTexts(ms[..i], tokens, floor) ==>
      tokens(Stub(NumberOf(ms[..i], ms[i].content.text, tokens, floor))) <= tokens(ms[i].content.text)
  }

  predicate RepeatsAreCheap<O>(ms: seq<Message<O>>, tokens: string -> nat, floor: nat) {
    forall i :: 0 <= i < |ms| ==> CheapIfRepeated(ms, tokens, floor, i)
  }

  lemma {:induction false} CheapStep<O>(ms: seq<Message<O>>, tokens: string -> nat, floor: nat)
    requires ms != []
    ensures var n := |ms| - 1;
            RepeatsAreCheap(ms, tokens, floor) <==>
            RepeatsAreCheap(ms[..n], tokens, floor) && CheapIfRepeated(ms, tokens, floor, n)
  {
    var n := |ms| - 1;
    forall i | 0 <= i < n
      ensures CheapIfRepeated(ms, tokens, floor, i) <==> CheapIfRepeated(ms[..n], tokens, floor, i)
    {
      assert ms[..n][i] == ms[i] && ms[..n][..i] == ms[..i];
    }
  }

  lemma {:induction false} SeenIsNumberOf<O>(ms: seq<Message<O>>, hash: string -> string, tokens: string -> nat,
                                             floor: nat, text: string)
    requires Injective(hash) && text in BlockTexts(ms, tokens, floor)
    ensures var seen := Elided(ms, hash, tokens, floor).seen;
            hash(text) in seen && seen[hash(text)] == NumberOf(ms, text, tokens, floor)
  {
    var front, m := ms[..|ms| - 1], ms[|ms| - 1];
    CountIsDistinct(front, hash, tokens, floor);
    CountIsDistinct(ms, hash, tokens, floor);
    BlockTextsStep(ms, tokens, floor);
    if text in BlockTexts(front, tokens, floor) {
      SeenIsNumberOf(front, hash, tokens, floor, text);
    }
  }

  /** The savings are never understated. With an injective hash they are exact if
      and only if, for every repeated block of the input, the stub with the
      block's number costs no more than the block. */
  lemma {:induction false} SavingsAreExactIff<O>(ms: seq<Message<O>>, hash: string -> string, tokens: string -> nat,
                                                 floor: nat)
    ensures var st := Elided(ms, hash, tokens, floor);
            && TotalCost(ms, tokens) <= TotalCost(st.out, tokens) + st.saved
            && (Injective(hash) ==>
                  (TotalCost(st.out, tokens) + st.saved == TotalCost(ms, tokens) <==>
                     RepeatsAreCheap(ms, tokens, floor)))
  {
    if ms != [] {
      var front, m := ms[..|ms| - 1], ms[|ms| - 1];
      SavingsAreExactIff(front, hash, tokens, floor);
      var s, t := Elided(front, hash, tokens, floor), Elided(ms, hash, tokens, floor);
      NextAppends(s, m, hash, tokens, floor);
      assert t.out[..|t.out| - 1] == s.out;
      if Injective(hash) {
        CheapStep(ms, tokens, floor);
        CountIsDistinct(front, hash, tokens, floor);
        if IsBlock(m, tokens, floor) && m.content.text in BlockTexts(front, tokens, floor) {
          SeenIsNumberOf(front, hash, tokens, floor, m.content.text);
        }
      }
    }
  }

  /** Deduplicating a tools or system list keeps one entry per key, the first,
      and doing it twice is doing it once. */
  lemma {:induction false} FirstOfKeeps<E>(entries: seq<E>, key: E -> string)
    ensures var kept := FirstOf(entries, key);
            && (forall i, j :: 0 <= i < j < |kept| ==> key(kept[i]) != key(kept[j]))
            && (forall i :: 0 <= i < |kept| ==> kept[i] in entries)
            && (forall k :: HasKey(kept, key, k) <==> HasKey(entries, key, k))
            && FirstOf(kept, key) == kept
  {
    if entries != [] {
      var front, last := entries[..|entries| - 1], entries[|entries| - 1];
      FirstOfKeeps(front, key);
      FirstOfCovers(entries, key);
      var kept, before := FirstOf(entries, key), FirstOf(front, key);
      assert entries == front + [last];
      if !HasKey(before, key, key(last)) {
        assert kept[..|kept| - 1] == before;
        assert forall i :: 0 <= i < |before| ==> key(before[i]) != key(last);
      }
    }
  }

  /** An entry is dropped exactly if an earlier one had its key; the rest keep
      their order. */
  lemma {:induction false} LaterDuplicatesGo<E>(entries: seq<E>, e: E, key: E -> string)
    ensures FirstOf([], key) == []
    ensures FirstOf(entries + [e], key) ==
            if HasKey(entries, key, key(e)) then FirstOf(entries, key) else FirstOf(entries, key) + [e]
  {
    assert (entries + [e])[..|entries|] == entries;
    FirstOfCovers(entries, key);
  }

  lemma {:induction false} FirstOfCovers<E>(entries: seq<E>, key: E -> string)
    ensures forall k :: HasKey(FirstOf(entries, key), key, k) <==> HasKey(entries, key, k)
  {
    if entries != [] {
      var front, last := entries[..|entries| - 1], entries[|entries| - 1];
      FirstOfCovers(front, key);
      assert entries == front + [last];
      HasKeyAppend(front, last, key);
      HasKeyAppend(FirstOf(front, key), last, key);
    }
  }
}

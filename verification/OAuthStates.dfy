/**
 The cookie that remembers pending Discord OAuth states
 (apps/web/lib/discord-auth.ts): a dot-separated string that behaves as a queue of
 at most four distinct states. A char stands for one UTF-16 code unit.
 */
module OAuthStates {
  import opened Wrappers
  import opened Sets

  const MAX_ENTRIES := 4
  const COOKIE_MAX_LENGTH := 1200

  predicate StateChar(c: char) { 'A' <= c <= 'Z' || 'a' <= c <= 'z' || '0' <= c <= '9' || c == '_' || c == '-' }

  predicate Valid(state: string) { 32 <= |state| <= 256 && forall c | c in state :: StateChar(c) }

  // ---- Strings

  function Split(s: string): (parts: seq<string>)
    ensures parts != []
  {
    if s == "" then [""]
    else
      var rest := Split(s[1..]);
      if s[0] == '.' then [""] + rest else [[s[0]] + rest[0]] + rest[1..]
  }

  function Join(parts: seq<string>): string {
    if parts == [] then "" else if |parts| == 1 then parts[0] else parts[0] + "." + Join(parts[1..])
  }

  function KeepValid(parts: seq<string>): (r: seq<string>)
    ensures forall s | s in r :: Valid(s)
  {
    if parts == [] then [] else (if Valid(parts[0]) then [parts[0]] else []) + KeepValid(parts[1..])
  }

  function Without(states: seq<string>, state: string): (r: seq<string>)
    ensures forall s :: s in r <==> s in states && s != state
    ensures |r| <= |states|
  {
    if states == [] then [] else (if states[0] == state then [] else [states[0]]) + Without(states[1..], state)
  }

  /** Every state once, where it first appears. */
  function Distinct(states: seq<string>): (r: seq<string>)
    ensures forall s :: s in r <==> s in states
    ensures |r| <= |states|
    decreases |states|
  {
    if states == [] then [] else [states[0]] + Distinct(Without(states[1..], states[0]))
  }

  function LastFour(states: seq<string>): (r: seq<string>)
    ensures |r| <= MAX_ENTRIES
  {
    if |states| <= MAX_ENTRIES then states else states[|states| - MAX_ENTRIES..]
  }

  function Parse(cookie: Option<string>): seq<string> {
    if cookie.None? || cookie.value == "" || |cookie.value| > COOKIE_MAX_LENGTH then []
    else LastFour(Distinct(KeepValid(Split(cookie.value))))
  }

  /** None is the exception for a malformed state. */
  function Append(cookie: Option<string>, state: string): Option<string> {
    if !Valid(state) then None else Some(Join(LastFour(Without(Parse(cookie), state) + [state])))
  }

  predicate Matches(returned: Option<string>, cookie: Option<string>) {
    returned.Some? && Valid(returned.value) && returned.value in Parse(cookie)
  }

  function Consume(returned: string, cookie: Option<string>): Option<string> {
    if !Valid(returned) then cookie
    else
      var remaining := Without(Parse(cookie), returned);
      if remaining != [] then Some(Join(remaining)) else None
  }

  // ---- A printed queue reads back

  predicate NoRepeats(states: seq<string>) { forall i, j | 0 <= i < j < |states| :: states[i] != states[j] }

  /** What a cookie stands for: at most four different well-formed states, oldest first. */
  predicate Queue(q: seq<string>) { |q| <= MAX_ENTRIES && NoRepeats(q) && forall s | s in q :: Valid(s) }

  lemma {:induction false} SplitWord(word: string, s: string)
    requires '.' !in word
    ensures Split(word) == [word]
    ensures Split(word + "." + s) == [word] + Split(s)
  {
    if word == "" {
      assert word + "." + s == "." + s;
      assert ("." + s)[1..] == s;
    } else {
      SplitWord(word[1..], s);
      assert word == [word[0]] + word[1..];
      assert (word + "." + s)[1..] == word[1..] + "." + s;
    }
  }

  lemma {:induction false} SplitJoin(parts: seq<string>)
    requires parts != [] && forall p | p in parts :: '.' !in p
    ensures Split(Join(parts)) == parts
  {
    hide Split;
    assert parts[0] in parts;
    if |parts| == 1 {
      SplitWord(parts[0], "");
      assert parts == [parts[0]];
    } else {
      assert forall p | p in parts[1..] :: p in parts;
      SplitJoin(parts[1..]);
      SplitWord(parts[0], Join(parts[1..]));
      assert Join(parts) == parts[0] + "." + Join(parts[1..]);
    }
  }

  lemma {:induction false} WithoutIsSame(states: seq<string>, state: string)
    requires state !in states
    ensures Without(states, state) == states
  {
    if states != [] { WithoutIsSame(states[1..], state); }
  }

  lemma {:induction false} WithoutKeepsDistinct(states: seq<string>, state: string)
    requires NoRepeats(states)
    ensures NoRepeats(Without(states, state))
  {
    if states != [] {
      WithoutKeepsDistinct(states[1..], state);
      assert states[0] !in states[1..];
    }
  }

  lemma {:induction false} DistinctHasNoRepeats(states: seq<string>)
    ensures NoRepeats(Distinct(states))
    decreases |states|
  {
    if states != [] {
      hide Without;
      var rest := Distinct(Without(states[1..], states[0]));
      DistinctHasNoRepeats(Without(states[1..], states[0]));
      assert Distinct(states) == [states[0]] + rest && states[0] !in rest;
    }
  }

  lemma {:induction false} DistinctIsSame(states: seq<string>)
    requires NoRepeats(states)
    ensures Distinct(states) == states
  {
    if states != [] {
      assert states == [states[0]] + states[1..];
      assert states[0] !in states[1..] && NoRepeats(states[1..]);
      WithoutIsSame(states[1..], states[0]);
      DistinctIsSame(states[1..]);
    }
  }

  lemma {:induction false} KeepValidIsSame(states: seq<string>)
    requires forall s | s in states :: Valid(s)
    ensures KeepValid(states) == states
  {
    if states != [] {
      assert Valid(states[0]);
      KeepValidIsSame(states[1..]);
    }
  }

  lemma {:induction false} JoinLength(states: seq<string>)
    requires states != [] && forall s | s in states :: Valid(s)
    ensures 32 <= |Join(states)| <= 257 * |states| - 1
  {
    assert Valid(states[0]);
    if |states| > 1 { JoinLength(states[1..]); }
  }

  /** The states read from any cookie whatsoever make a queue. */
  lemma {:induction false} ParseIsQueue(cookie: Option<string>)
    ensures Queue(Parse(cookie))
  {
    if cookie.Some? { DistinctHasNoRepeats(KeepValid(Split(cookie.value))); }
    hide Valid, Split, KeepValid, Distinct;
  }

  /** Printing a queue and reading it back changes nothing, and the printed value is never too long to be read. */
  lemma {:induction false} PrintedQueueReadsBack(q: seq<string>)
    requires Queue(q) && q != []
    ensures Parse(Some(Join(q))) == q
    ensures |Join(q)| <= 1027 < COOKIE_MAX_LENGTH
  {
    JoinLength(q);
    forall p | p in q ensures '.' !in p { assert Valid(p); }
    SplitJoin(q);
    KeepValidIsSame(q);
    DistinctIsSame(q);
  }

  // ---- The cookie behaves as the queue

  /** Moves a state to the back, and forgets the oldest beyond four. */
  function MoveToBack(q: seq<string>, state: string): seq<string> { LastFour(Without(q, state) + [state]) }

  lemma {:induction false} MoveToBackKeepsQueue(q: seq<string>, state: string)
    requires Queue(q) && Valid(state)
    ensures Queue(MoveToBack(q, state)) && MoveToBack(q, state) != []
  {
    hide Valid;
    WithoutKeepsDistinct(q, state);
    var moved := Without(q, state) + [state];
    assert NoRepeats(moved) by {
      forall i, j | 0 <= i < j < |moved| ensures moved[i] != moved[j] { assert moved[i] in Without(q, state); }
    }
  }

  /** Appending moves the state to the back of the queue the cookie stands for; the printed value is never too long. */
  lemma {:induction false} AppendRefines(cookie: Option<string>, state: string)
    ensures Append(cookie, state).Some? <==> Valid(state)
    ensures Valid(state) ==>
              && Parse(Append(cookie, state)) == MoveToBack(Parse(cookie), state)
              && |Append(cookie, state).value| <= 1027
  {
    hide Valid, Parse, Queue;
    if Valid(state) {
      ParseIsQueue(cookie);
      MoveToBackKeepsQueue(Parse(cookie), state);
      PrintedQueueReadsBack(MoveToBack(Parse(cookie), state));
    }
  }

  /** Consuming removes exactly the returned state, and leaves the cookie alone when that is malformed. */
  lemma {:induction false} ConsumeRefines(cookie: Option<string>, returned: string)
    ensures Parse(Consume(returned, cookie)) == Without(Parse(cookie), returned)
    ensures if Valid(returned) then Consume(returned, cookie).None? <==> Without(Parse(cookie), returned) == []
            else Consume(returned, cookie) == cookie
  {
    ParseIsQueue(cookie);
    var remaining := Without(Parse(cookie), returned);
    if Valid(returned) {
      WithoutKeepsDistinct(Parse(cookie), returned);
      if remaining != [] { PrintedQueueReadsBack(remaining); }
    } else {
      WithoutIsSame(Parse(cookie), returned);
    }
    hide Split, KeepValid, Distinct, Join;
  }

  lemma {:induction false} MatchesMembers(returned: Option<string>, cookie: Option<string>)
    ensures Matches(returned, cookie) <==> returned.Some? && returned.value in Parse(cookie)
  {
    ParseIsQueue(cookie);
    hide Parse, Valid;
  }

  // ---- Runs

  datatype Op = Started(state: string) | Returned(state: string)

  /** The cookie after a login attempt starts (a malformed state changes nothing) or comes back. */
  function Step(cookie: Option<string>, op: Op): Option<string> {
    match op
    case Started(s) => if Append(cookie, s).Some? then Append(cookie, s) else cookie
    case Returned(s) => Consume(s, cookie)
  }

  function Run(cookie: Option<string>, ops: seq<Op>): Option<string> {
    if ops == [] then cookie else Step(Run(cookie, ops[..|ops| - 1]), ops[|ops| - 1])
  }

  function QueueStep(q: seq<string>, op: Op): seq<string> {
    match op
    case Started(s) => if Valid(s) then MoveToBack(q, s) else q
    case Returned(s) => Without(q, s)
  }

  function QueueRun(q: seq<string>, ops: seq<Op>): seq<string> {
    if ops == [] then q else QueueStep(QueueRun(q, ops[..|ops| - 1]), ops[|ops| - 1])
  }

  /** Over any run from any cookie, the cookie stands for the queue the same operations give. */
  lemma {:induction false} RunRefines(cookie: Option<string>, ops: seq<Op>)
    ensures Parse(Run(cookie, ops)) == QueueRun(Parse(cookie), ops)
    ensures Queue(Parse(Run(cookie, ops)))
  {
    hide Parse, Queue, Append, Consume, MoveToBack, Valid;
    ParseIsQueue(Run(cookie, ops));
    if ops != [] {
      var before, op := ops[..|ops| - 1], ops[|ops| - 1];
      RunRefines(cookie, before);
      AppendRefines(Run(cookie, before), op.state);
      ConsumeRefines(Run(cookie, before), op.state);
    }
  }

  // ---- How long a state is remembered

  function Elements(states: seq<string>): (r: set<string>) { set s | s in states }

  lemma {:induction false} ElementsSize(states: seq<string>)
    requires NoRepeats(states)
    ensures |Elements(states)| == |states|
  {
    if states == [] {
      assert Elements(states) == {};
    } else {
      ElementsSize(states[1..]);
      assert Elements(states) == {states[0]} + Elements(states[1..]);
      assert states[0] !in states[1..];
    }
  }

  lemma {:induction false} Regroup(a: seq<string>, b: seq<string>, c: seq<string>)
    ensures a + (b + c) == (a + b) + c
  {
  }

  lemma {:induction false} WithoutAppend(a: seq<string>, b: seq<string>, state: string)
    ensures Without(a + b, state) == Without(a, state) + Without(b, state)
  {
    if a == [] {
      assert a + b == b;
    } else {
      WithoutAppend(a[1..], b, state);
      assert (a + b)[1..] == a[1..] + b && (a + b)[0] == a[0];
      Regroup(if a[0] == state then [] else [a[0]], Without(a[1..], state), Without(b, state));
    }
  }

  /** The other states the operations start. */
  function OthersStarted(ops: seq<Op>, state: string): set<string> {
    set op | op in ops && op.Started? && Valid(op.state) && op.state != state :: op.state
  }

  function PendingStep(pending: set<string>, op: Op, state: string): set<string> {
    match op
    case Started(t) => if Valid(t) && t != state then pending + {t} else pending
    case Returned(t) => pending - {t}
  }

  /** The other states started by the operations that have not come back since. */
  function Pending(ops: seq<Op>, state: string): set<string> {
    if ops == [] then {} else PendingStep(Pending(ops[..|ops| - 1], state), ops[|ops| - 1], state)
  }

  predicate StartedAndAway(ops: seq<Op>, t: string, j: int) {
    0 <= j < |ops| && ops[j] == Started(t) && Returned(t) !in ops[j + 1..]
  }

  lemma {:induction false} PendingMeaning(ops: seq<Op>, state: string, t: string)
    ensures t in Pending(ops, state) <==> Valid(t) && t != state && exists j :: StartedAndAway(ops, t, j)
  {
    hide Valid;
    if ops != [] {
      var n := |ops| - 1;
      var before, op := ops[..n], ops[n];
      PendingMeaning(before, state, t);
      forall j | 0 <= j < n ensures StartedAndAway(ops, t, j) <==> StartedAndAway(before, t, j) && op != Returned(t) {
        assert ops[j + 1..] == before[j + 1..] + [op];
        assert before[j] == ops[j];
      }
      if op == Started(t) { assert StartedAndAway(ops, t, n); }
      if j :| StartedAndAway(before, t, j) && op != Returned(t) { assert StartedAndAway(ops, t, j); }
    }
  }

  /** The queue holds `state`, and behind it `post`. */
  predicate Holds(q: seq<string>, pre: seq<string>, state: string, post: seq<string>) { q == pre + [state] + post }

  lemma {:induction false} WithoutAround(pre: seq<string>, state: string, post: seq<string>, t: string)
    requires t != state
    ensures Without(pre + [state] + post, t) == Without(pre, t) + [state] + Without(post, t)
  {
    WithoutAppend(pre + [state], post, t);
    WithoutAppend(pre, [state], t);
    WithoutIsSame([state], t);
  }

  /** The last four of a queue keep `state` exactly when at most three states are behind it. */
  lemma {:induction false} LastFourAround(pre: seq<string>, state: string, post: seq<string>)
    returns (pre': seq<string>)
    ensures |post| <= 3 ==> LastFour(pre + [state] + post) == pre' + [state] + post && forall s | s in pre' :: s in pre
    ensures |post| > 3 ==> forall s | s in LastFour(pre + [state] + post) :: s in post
  {
    var all := pre + [state] + post;
    var cut := if |all| <= MAX_ENTRIES then 0 else |all| - MAX_ENTRIES;
    pre' := if cut <= |pre| then pre[cut..] else [];
    if |post| > 3 {
      assert LastFour(all) == post[|post| - MAX_ENTRIES..];
    } else {
      assert LastFour(all) == all[cut..] == pre' + [state] + post;
    }
  }

  /** Another state moving to the back pushes `state` out exactly when four states are then behind it. */
  lemma {:induction false} MoveAround(pre: seq<string>, state: string, post: seq<string>,
                                      t: string) returns (pre': seq<string>, post': seq<string>)
    requires t != state && state !in pre
    ensures Elements(post') == Elements(post) + {t}
    ensures NoRepeats(post) ==> NoRepeats(post')
    ensures var moved := MoveToBack(pre + [state] + post, t);
            if |post'| <= 3 then Holds(moved, pre', state, post') && state !in pre'
            else state !in post ==> state !in moved
  {
    hide LastFour;
    WithoutAround(pre, state, post, t);
    post' := Without(post, t) + [t];
    if NoRepeats(post) { WithoutKeepsDistinct(post, t); }
    assert Without(pre + [state] + post, t) + [t] == Without(pre, t) + [state] + post';
    pre' := LastFourAround(Without(pre, t), state, post');
  }

  /** Behind `state` stand exactly these others. */
  ghost predicate Behind(q: seq<string>, state: string, others: set<string>) {
    exists pre, post :: Holds(q, pre, state, post) && state !in pre && Elements(post) == others
  }

  lemma {:induction false} StartedIsLast(q: seq<string>, state: string)
    requires Queue(q) && Valid(state)
    ensures Behind(QueueStep(q, Started(state)), state, {})
  {
    var rest := Without(q, state);
    var kept := if |rest| <= 3 then rest else rest[|rest| - 3..];
    assert LastFour(rest + [state]) == kept + [state];
    assert Holds(kept + [state], kept, state, []);
    assert Elements([]) == {};
  }

  lemma {:induction false} BehindByMove(q: seq<string>, state: string, others: set<string>, t: string)
    requires Queue(q) && Behind(q, state, others) && t != state
    ensures var r := MoveToBack(q, t); if |others + {t}| <= 3 then Behind(r, state, others + {t}) else state !in r
  {
    hide MoveToBack, Valid;
    var pre, post :| Holds(q, pre, state, post) && state !in pre && Elements(post) == others;
    RestDistinct(q, pre, state, post);
    var pre', post' := MoveAround(pre, state, post, t);
    ElementsSize(post');
  }

  lemma {:induction false} BehindByReturn(q: seq<string>, state: string, others: set<string>, t: string)
    requires Queue(q) && Behind(q, state, others) && t != state
    ensures Behind(Without(q, t), state, others - {t}) && |others| <= 3
  {
    hide Valid;
    var pre, post :| Holds(q, pre, state, post) && state !in pre && Elements(post) == others;
    RestDistinct(q, pre, state, post);
    ElementsSize(post);
    WithoutAround(pre, state, post, t);
    assert Holds(Without(q, t), Without(pre, t), state, Without(post, t));
    assert Elements(Without(post, t)) == others - {t};
  }

  lemma {:induction false} BehindByStep(q: seq<string>, state: string, others: set<string>, op: Op)
    requires Queue(q) && Behind(q, state, others) && op.state != state
    ensures var r, next := QueueStep(q, op), PendingStep(others, op, state);
            if |next| <= 3 then Behind(r, state, next) else state !in r
  {
    hide MoveToBack, Valid, Behind, Queue;
    BehindByMove(q, state, others, op.state);
    BehindByReturn(q, state, others, op.state);
    SubsetSize(others - {op.state}, others);
  }

  lemma {:induction false} MovedMembers(q: seq<string>, t: string)
    ensures forall s | s in MoveToBack(q, t) :: s in q || s == t
  {
  }

  lemma {:induction false} RestDistinct(q: seq<string>, pre: seq<string>, state: string, post: seq<string>)
    requires NoRepeats(q) && Holds(q, pre, state, post)
    ensures NoRepeats(post) && state !in post
  {
    assert post == q[|pre| + 1..];
    assert q[|pre|] == state;
  }

  lemma {:induction false} QueueRunKeepsQueue(q: seq<string>, ops: seq<Op>)
    requires Queue(q)
    ensures Queue(QueueRun(q, ops))
  {
    if ops != [] {
      var before, op := ops[..|ops| - 1], ops[|ops| - 1];
      QueueRunKeepsQueue(q, before);
      if Valid(op.state) { MoveToBackKeepsQueue(QueueRun(q, before), op.state); }
      WithoutKeepsDistinct(QueueRun(q, before), op.state);
      hide MoveToBack, Valid;
    }
  }

  /** At no point were more than three others pending. */
  predicate NeverCrowded(ops: seq<Op>, state: string) { forall k | 0 <= k <= |ops| :: |Pending(ops[..k], state)| <= 3 }

  lemma {:induction false} CrowdedStep(ops: seq<Op>, state: string)
    requires ops != []
    ensures NeverCrowded(ops, state) <==> NeverCrowded(ops[..|ops| - 1], state) && |Pending(ops, state)| <= 3
  {
    var before := ops[..|ops| - 1];
    assert ops[..|ops|] == ops;
    forall k | 0 <= k <= |before| ensures before[..k] == ops[..k] {}
    hide Pending;
    if NeverCrowded(ops, state) {
      forall k | 0 <= k <= |before| ensures |Pending(before[..k], state)| <= 3 {
        assert |Pending(ops[..k], state)| <= 3;
      }
    }
    if NeverCrowded(before, state) && |Pending(ops, state)| <= 3 {
      forall k | 0 <= k <= |ops| ensures |Pending(ops[..k], state)| <= 3 {
        if k < |ops| { assert |Pending(before[..k], state)| <= 3; }
      }
    }
  }

  /** Behind `state` stand the others pending, unless at some point they were more than three and it was pushed out. */
  lemma {:induction false} BehindByRun(q: seq<string>, state: string, ops: seq<Op>)
    requires Queue(q) && Behind(q, state, {})
    requires forall op | op in ops :: op.state != state
    ensures var r := QueueRun(q, ops);
            if NeverCrowded(ops, state) then Behind(r, state, Pending(ops, state)) else state !in r
  {
    if ops != [] {
      hide Behind, Queue, MoveToBack, Valid, NeverCrowded;
      var before, op := ops[..|ops| - 1], ops[|ops| - 1];
      assert op in ops;
      BehindByRun(q, state, before);
      CrowdedStep(ops, state);
      QueueRunKeepsQueue(q, before);
      if NeverCrowded(before, state) {
        BehindByStep(QueueRun(q, before), state, Pending(before, state), op);
      } else {
        MovedMembers(QueueRun(q, before), op.state);
      }
    }
  }

  lemma {:induction false} RunInTwo(q: seq<string>, ops: seq<Op>, i: nat)
    requires i <= |ops|
    ensures QueueRun(q, ops) == QueueRun(QueueRun(q, ops[..i]), ops[i..])
  {
    if i == |ops| {
      assert ops[..i] == ops;
    } else {
      var before := ops[..|ops| - 1];
      RunInTwo(q, before, i);
      assert before[..i] == ops[..i] && ops[i..][..|ops| - i - 1] == before[i..];
      hide QueueStep;
    }
  }

  lemma {:induction false} CookieAfterStart(cookie: Option<string>, ops: seq<Op>, i: nat, state: string)
    requires i < |ops| && ops[i] == Started(state) && Valid(state)
    requires forall op | op in ops[i + 1..] :: op.state != state
    ensures Matches(Some(state), Run(cookie, ops)) <==> NeverCrowded(ops[i + 1..], state)
  {
    hide Parse, Queue, QueueStep, Valid, NeverCrowded;
    RunRefines(cookie, ops);
    ParseIsQueue(cookie);
    MatchesMembers(Some(state), Run(cookie, ops));
    var q := Parse(cookie);
    RunInTwo(q, ops, i + 1);
    assert ops[..i + 1][..i] == ops[..i];
    QueueRunKeepsQueue(q, ops[..i]);
    QueueRunKeepsQueue(q, ops[..i + 1]);
    StartedIsLast(QueueRun(q, ops[..i]), state);
    BehindByRun(QueueRun(q, ops[..i + 1]), state, ops[i + 1..]);
  }

  /**
   From its last start on a state matches exactly as long as it has not come back and at no point more than three other
   states were pending, that is, had been started after it and had not come back.
   */
  lemma {:induction false} RememberedExactly(cookie: Option<string>, ops: seq<Op>, i: nat, state: string)
    requires i < |ops| && ops[i] == Started(state) && Valid(state)
    requires Started(state) !in ops[i + 1..]
    ensures Matches(Some(state), Run(cookie, ops)) <==>
              Returned(state) !in ops[i + 1..] && NeverCrowded(ops[i + 1..], state)
  {
    hide Matches, Run, Valid, Pending;
    var later := ops[i + 1..];
    if Returned(state) in later {
      var k :| 0 <= k < |later| && later[k] == Returned(state);
      assert forall op | op in ops[i + 1 + k + 1..] :: op in later;
      ForgottenOnReturn(cookie, ops, i + 1 + k, state);
    } else {
      CookieAfterStart(cookie, ops, i, state);
    }
  }

  /**
   A started state still matches if it has not come back since and at most three other states were started after it.
   */
  lemma {:induction false} RememberedAfterThree(cookie: Option<string>, ops: seq<Op>, i: nat, state: string)
    requires i < |ops| && ops[i] == Started(state) && Valid(state)
    requires Returned(state) !in ops[i + 1..]
    requires |OthersStarted(ops[i + 1..], state)| <= 3
    ensures Matches(Some(state), Run(cookie, ops))
    decreases |ops| - i
  {
    hide Matches, Run, Valid;
    var later := ops[i + 1..];
    if Started(state) in later {
      var k :| 0 <= k < |later| && later[k] == Started(state);
      var rest := ops[i + 1 + k + 1..];
      assert forall op | op in rest :: op in later;
      SubsetSize(OthersStarted(rest, state), OthersStarted(later, state));
      RememberedAfterThree(cookie, ops, i + 1 + k, state);
    } else {
      forall k | 0 <= k <= |later| ensures |Pending(later[..k], state)| <= 3 {
        forall t | t in Pending(later[..k], state) ensures t in OthersStarted(later, state) {
          PendingMeaning(later[..k], state, t);
          assert Started(t) in later;
        }
        SubsetSize(Pending(later[..k], state), OthersStarted(later, state));
      }
      RememberedExactly(cookie, ops, i, state);
    }
  }

  /** A state that has come back does not match again until it is started again. */
  lemma {:induction false} ForgottenOnReturn(cookie: Option<string>, ops: seq<Op>, i: nat, state: string)
    requires i < |ops| && ops[i] == Returned(state)
    requires Started(state) !in ops[i + 1..]
    ensures !Matches(Some(state), Run(cookie, ops))
  {
    hide Parse, Matches, Valid;
    RunRefines(cookie, ops);
    MatchesMembers(Some(state), Run(cookie, ops));
    var q := Parse(cookie);
    RunInTwo(q, ops, i + 1);
    assert ops[..i + 1][..i] == ops[..i];
    StaysForgotten(QueueRun(q, ops[..i + 1]), ops[i + 1..], state);
  }

  lemma {:induction false} StaysForgotten(q: seq<string>, ops: seq<Op>, state: string)
    requires state !in q && Started(state) !in ops
    ensures state !in QueueRun(q, ops)
  {
    if ops != [] {
      var before, op := ops[..|ops| - 1], ops[|ops| - 1];
      StaysForgotten(q, before, state);
      assert op in ops;
      MovedMembers(QueueRun(q, before), op.state);
      hide MoveToBack;
    }
  }
}

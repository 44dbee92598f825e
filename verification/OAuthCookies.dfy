/**
 What any cookie is read as (apps/web/lib/discord-auth.ts), character by character:
 the last four different well-formed parts, in the order in which they first appear.
 */
module OAuthCookies {
  import opened Wrappers
  import opened Sets
  import opened OAuthStates

  /** 32 to 256 letters, digits, underscores and hyphens. */
  predicate WellFormed(s: string) {
    && 32 <= |s| <= 256
    && forall c | c in s :: 'A' <= c <= 'Z' || 'a' <= c <= 'z' || '0' <= c <= '9' || c in {'_', '-'}
  }

  lemma {:induction false} WellFormedIsValid(s: string)
    ensures WellFormed(s) <==> Valid(s)
  {
  }

  /** Splitting loses nothing: the parts have no dots and give back the text. */
  lemma {:induction false} SplitMeaning(s: string)
    ensures forall p | p in Split(s) :: '.' !in p
    ensures Join(Split(s)) == s
  {
    if s != "" {
      hide Split, Join;
      var c, rest := s[0], Split(s[1..]);
      SplitMeaning(s[1..]);
      SplitStep(s);
      if c == '.' { JoinEmptyFirst(rest); } else { JoinLongerFirst(c, rest); }
      assert s == [c] + s[1..];
      assert forall p | p in [[c] + rest[0]] + rest[1..] :: p == [c] + rest[0] || p in rest;
    }
  }

  lemma {:induction false} SplitStep(s: string)
    requires s != ""
    ensures var rest := Split(s[1..]);
            Split(s) == if s[0] == '.' then [""] + rest else [[s[0]] + rest[0]] + rest[1..]
  {
  }

  lemma {:induction false} JoinEmptyFirst(rest: seq<string>)
    requires rest != []
    ensures Join([""] + rest) == "." + Join(rest)
  {
    assert ([""] + rest)[1..] == rest;
  }

  lemma {:induction false} JoinLongerFirst(c: char, rest: seq<string>)
    requires rest != []
    ensures Join([[c] + rest[0]] + rest[1..]) == [c] + Join(rest)
  {
    var parts := [[c] + rest[0]] + rest[1..];
    assert parts[1..] == rest[1..];
    if |rest| > 1 {
      assert ([c] + rest[0]) + "." + Join(rest[1..]) == [c] + (rest[0] + "." + Join(rest[1..]));
    }
  }

  predicate FirstAt(parts: seq<string>, k: int, s: string) {
    0 <= k < |parts| && parts[k] == s && s !in parts[..k]
  }

  /** The well-formed parts that first appear after position `k`. */
  function NewAfter(parts: seq<string>, k: int): set<string>
    requires 0 <= k < |parts|
  {
    set t | t in parts[k + 1..] && WellFormed(t) && t !in parts[..k + 1]
  }

  lemma {:induction false} DistinctSnoc(xs: seq<string>, x: string)
    ensures Distinct(xs + [x]) == Distinct(xs) + if x in xs then [] else [x]
    decreases |xs|
  {
    if xs == [] {
      assert [] + [x] == [x] && Without([], x) == [];
    } else {
      var h, t := xs[0], xs[1..];
      assert (xs + [x])[0] == h && (xs + [x])[1..] == t + [x];
      WithoutAppend(t, [x], h);
      WithoutOne(x, h);
      assert x in xs <==> x == h || x in t by { assert xs == [h] + t; }
      if x == h {
        assert Without(t, h) + [] == Without(t, h);
      } else {
        DistinctSnoc(Without(t, h), x);
      }
    }
  }

  lemma {:induction false} WithoutOne(x: string, h: string)
    ensures Without([x], h) == if x == h then [] else [x]
  {
    assert Without([], h) == [];
  }

  lemma {:induction false} KeepValidSnoc(parts: seq<string>, p: string)
    ensures KeepValid(parts + [p]) == KeepValid(parts) + if Valid(p) then [p] else []
  {
    if parts == [] {
      assert [] + [p] == [p] && KeepValid([]) == [];
    } else {
      assert (parts + [p])[0] == parts[0] && (parts + [p])[1..] == parts[1..] + [p];
      KeepValidSnoc(parts[1..], p);
    }
  }

  lemma {:induction false} KeptMember(parts: seq<string>, s: string)
    ensures s in KeepValid(parts) <==> s in parts && Valid(s)
  {
    if parts != [] {
      KeptMember(parts[1..], s);
      assert parts == [parts[0]] + parts[1..];
    }
    hide Valid;
  }

  /** One more part is new behind position `k` if it is well-formed and was not there before. */
  lemma {:induction false} NewAfterSnoc(front: seq<string>, p: string, k: int)
    requires 0 <= k < |front|
    ensures NewAfter(front + [p], k) == NewAfter(front, k) + if WellFormed(p) && p !in front then {p} else {}
  {
    hide WellFormed;
    var parts := front + [p];
    assert parts[k + 1..] == front[k + 1..] + [p] && parts[..k + 1] == front[..k + 1];
    assert front == front[..k + 1] + front[k + 1..];
    forall t ensures t in NewAfter(parts, k) <==> t in NewAfter(front, k) || (t == p && WellFormed(p) && p !in front) {
      assert t in parts[k + 1..] <==> t in front[k + 1..] || t == p;
      assert t in front <==> t in front[..k + 1] || t in front[k + 1..];
    }
  }

  lemma {:induction false} ElementsSnoc(states: seq<string>, s: string)
    ensures Elements(states + [s]) == Elements(states) + {s}
  {
  }

  /** Behind a state stand the well-formed ones that first appear after it. */
  lemma {:induction false} ReadInOrder(parts: seq<string>, k: int, s: string)
    returns (pre: seq<string>, post: seq<string>)
    requires FirstAt(parts, k, s) && Valid(s)
    ensures Holds(Distinct(KeepValid(parts)), pre, s, post) && Elements(post) == NewAfter(parts, k)
    decreases |parts|
  {
    hide Valid, Distinct, KeepValid, WellFormed;
    var front, p := parts[..|parts| - 1], parts[|parts| - 1];
    assert parts == front + [p];
    WellFormedIsValid(p);
    KeepValidSnoc(front, p);
    KeptMember(front, p);
    var kept := KeepValid(front);
    if Valid(p) { DistinctSnoc(kept, p); } else { assert kept + [] == kept; }
    if k == |front| {
      assert parts[..k] == front;
      pre, post := Distinct(kept), [];
      assert parts[k + 1..] == [];
      assert Elements([]) == {} == NewAfter(parts, k);
      assert pre + [s] + post == pre + [s];
    } else {
      assert front[..k] == parts[..k] && front[..k + 1] == parts[..k + 1];
      pre, post := ReadInOrder(front, k, s);
      NewAfterSnoc(front, p, k);
      ElementsSnoc(post, p);
      if Valid(p) && p !in front {
        assert pre + [s] + post + [p] == pre + [s] + (post + [p]);
        post := post + [p];
      } else {
        assert Distinct(kept) + [] == Distinct(kept);
      }
    }
  }

  /**
   A cookie of at most 1200 characters is read as the last four of its different well-formed parts: a part is among
   them exactly if at most three others first appear after it, and those are the ones that then stand behind it.
   */
  lemma {:induction false} ReadExactly(cookie: string, s: string)
    ensures s in Parse(Some(cookie)) <==>
            && |cookie| <= 1200 && WellFormed(s)
            && exists k :: FirstAt(Split(cookie), k, s) && |NewAfter(Split(cookie), k)| <= 3
    ensures s in Parse(Some(cookie)) ==>
              exists k, pre, post :: FirstAt(Split(cookie), k, s) && Holds(Parse(Some(cookie)), pre, s, post)
                                     && Elements(post) == NewAfter(Split(cookie), k)
  {
    hide Valid, Distinct, KeepValid, WellFormed, Split, LastFour;
    var parts := Split(cookie);
    var all := Distinct(KeepValid(parts));
    WellFormedIsValid(s);
    KeptMember(parts, s);
    ShortCookie();
    if |cookie| <= 1200 {
      EmptyCookie(cookie);
      if s in parts && Valid(s) {
        var k := FirstIndex(parts, s);
        var pre, post := ReadInOrder(parts, k, s);
        KeptOfAll(all, pre, s, post);
        DistinctHasNoRepeats(KeepValid(parts));
        RestDistinct(all, pre, s, post);
        ElementsSize(post);
        var pre' := LastFourAround(pre, s, post);
        forall j | FirstAt(parts, j, s) ensures j == k { OneFirst(parts, j, k, s); }
        if |post| <= 3 { assert Holds(LastFour(all), pre', s, post); }
      } else {
        OnlyMembers(all, s);
        forall j ensures !(FirstAt(parts, j, s) && Valid(s)) {}
      }
    }
  }

  lemma {:induction false} KeptOfAll(all: seq<string>, pre: seq<string>, s: string, post: seq<string>)
    requires Holds(all, pre, s, post)
    ensures s in all && all == pre + [s] + post
  {
  }

  lemma {:induction false} OnlyMembers(all: seq<string>, s: string)
    requires s !in all
    ensures s !in LastFour(all)
  {
  }

  lemma {:induction false} ShortCookie()
    ensures COOKIE_MAX_LENGTH == 1200
  {
  }

  /** The empty cookie has one part, which is not well-formed. */
  lemma {:induction false} EmptyCookie(cookie: string)
    requires |cookie| <= 1200
    ensures Parse(Some(cookie)) == LastFour(Distinct(KeepValid(Split(cookie))))
  {
    if cookie == "" {
      assert Split("") == [""];
      assert !Valid("");
      assert KeepValid([""]) == KeepValid([""][1..]) == [];
    }
  }

  lemma {:induction false} FirstIndex(parts: seq<string>, s: string) returns (k: int)
    requires s in parts
    ensures FirstAt(parts, k, s)
  {
    var front := parts[..|parts| - 1];
    assert parts == front + [parts[|parts| - 1]];
    if s in front {
      k := FirstIndex(front, s);
      assert front[..k] == parts[..k];
    } else {
      k := |parts| - 1;
    }
  }

  lemma {:induction false} OneFirst(parts: seq<string>, j: int, k: int, s: string)
    requires FirstAt(parts, j, s) && FirstAt(parts, k, s)
    ensures j == k
  {
  }

  /** A state is added to the cookie exactly if it is well-formed. */
  lemma {:induction false} AppendAccepts(cookie: Option<string>, state: string)
    ensures Append(cookie, state).Some? <==> WellFormed(state)
  {
    WellFormedIsValid(state);
    hide Valid, WellFormed, Parse;
  }
}

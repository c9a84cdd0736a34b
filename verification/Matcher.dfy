/** `mosquitto_topic_matches_sub2` and `mosquitto_sub_topic_tokenise`, proved against the
    level structure of `Topics`. */
module Matcher {
  import opened Basics
  import opened Topics

  // ---------- What one comparison step does to the level match ----------

  /** Two equal ordinary characters can be dropped from both sides. */
  lemma EqualCharacterStep(filter: string, topic: string)
    requires filter != "" && topic != "" && filter[0] == topic[0]
    requires filter[0] != '+' && filter[0] != '#'
    requires GoodTail(filter[1..], filter[0] == '/')
    ensures LevelMatch(Levels(filter), Levels(topic)) == LevelMatch(Levels(filter[1..]), Levels(topic[1..]))
  {
    var f, t := Levels(filter[1..]), Levels(topic[1..]);
    var f1, t1 := Levels(filter), Levels(topic);
    if filter[0] == '/' {
      assert f1[1..] == f && t1[1..] == t;
    } else {
      assert f1[1..] == f[1..] && t1[1..] == t[1..];
      GoodTailIsValidLevels(filter[1..]);
      FirstLevelChars(filter);
      assert f1[0][0] == filter[0];
      assert f1[0] == t1[0] <==> f[0] == t[0] by {
        assert f[0] == f1[0][1..] && t[0] == t1[0][1..];
        assert f1[0] == [filter[0]] + f[0] && t1[0] == [topic[0]] + t[0];
      }
      assert f[0] != "+" && f[0] != "#" by {
        assert '+' in "+" && '#' in "#";
      }
    }
  }

  /** A filter level `+` consumes what is left of the topic's level. */
  lemma {:induction false} PlusStep(filter: string, topic: string, skipped: string)
    requires filter != "" && filter[0] == '+' && (|filter| == 1 || filter[1] == '/')
    requires topic == "" || topic[0] == '/'
    requires '/' !in skipped
    ensures LevelMatch(Levels(filter), Levels(skipped + topic)) == LevelMatch(Levels(filter[1..]), Levels(topic))
  {
    var g, t, u := Levels(filter[1..]), Levels(topic), Levels(skipped + topic);
    var f := Levels(filter);
    FirstLevelChars(filter);
    assert f[0] == "+" && f[1..] == g[1..];
    LevelsAfterPlain(skipped, topic);
    assert u[1..] == t[1..];
    if topic != "" { assert t[0] == ""; }
  }

  /** Characters other than `/` in front of a string extend its first level. */
  lemma {:induction false} LevelsAfterPlain(plain: string, s: string)
    requires '/' !in plain
    ensures Levels(plain + s) == [plain + Levels(s)[0]] + Levels(s)[1..]
  {
    if plain == "" {
      assert plain + s == s && plain + Levels(s)[0] == Levels(s)[0];
    } else {
      LevelsAfterPlain(plain[1..], s);
      assert (plain + s)[1..] == plain[1..] + s;
      assert plain[0] in plain;
      assert [plain[0]] + (plain[1..] + Levels(s)[0]) == plain + Levels(s)[0];
    }
  }

  /** An ordinary filter character against a different character or the end of the topic:
      only the parent rule, `x` matched by `x/#`, can still make a match. */
  lemma MismatchStep(filter: string, topic: string)
    requires filter != "" && filter[0] != '+' && filter[0] != '#'
    requires topic == "" || topic[0] != filter[0]
    ensures LevelMatch(Levels(filter), Levels(topic)) <==> topic == "" && filter == "/#"
  {
    var f, t := Levels(filter), Levels(topic);
    if filter[0] == '/' {
      assert f[1..] == Levels(filter[1..]);
      if topic == "" {
        assert t[1..] == [];
        JoinLevels(filter[1..]);
        if Levels(filter[1..]) == ["#"] {
          assert filter[1..] == "#" && filter == "/" + filter[1..];
        }
        if filter == "/#" {
          assert filter[1..] == "#" && Levels("#") == ["#"];
        }
      } else {
        FirstLevelChars(topic);
        assert f[0] == "";
      }
    } else {
      FirstLevelChars(filter);
      if topic != "" && topic[0] != '/' { FirstLevelChars(topic); }
      assert f[0][0] == filter[0];
      assert f[0] != t[0];
    }
  }

  /** A used-up filter matches no more than a used-up topic. */
  lemma {:induction false} EndOfFilter(topic: string)
    ensures LevelMatch(Levels(""), Levels(topic)) <==> topic == ""
  {
    var t := Levels(topic);
    if topic != "" {
      if topic[0] == '/' { assert t[1..] == Levels(topic[1..]); } else { FirstLevelChars(topic); }
    }
  }

  // ---------- The walk ----------

  /** The topic is walked to its end in search of characters a topic name may not hold. */
  method ScanTopic(topic: string, start: nat) returns (rc: Rc)
    requires start <= |topic|
    ensures rc == (if forall k :: start <= k < |topic| ==> topic[k] != '+' && topic[k] != '#' then Success else Inval)
  {
    var t := start;
    while t < |topic|
      invariant start <= t <= |topic|
      invariant forall k :: start <= k < t ==> topic[k] != '+' && topic[k] != '#'
    {
      if topic[t] == '+' || topic[t] == '#' { return Inval; }
      t := t + 1;
    }
    return Success;
  }

  /** The two walks stand at `s` and `t`, the filter and the topic are valid, and what is
      left decides the whole match. */
  ghost predicate Walk(sub: string, topic: string, s: nat, t: nat) {
    && s <= |sub| && t <= |topic|
    && WildcardFree(topic)
    && GoodTail(sub[s..], s == 0 || sub[s - 1] == '/')
    && LevelMatch(Levels(sub[s..]), Levels(topic[t..])) == LevelMatch(Levels(sub), Levels(topic))
  }

  lemma WalkStarts(sub: string, topic: string)
    requires ValidFilter(sub) && WildcardFree(topic)
    ensures Walk(sub, topic, 0, 0)
    ensures forall k :: 0 <= k < |topic| ==> topic[k] != '+' && topic[k] != '#'
  {
    GoodTailIsValidLevels(sub);
    assert sub[0..] == sub && topic[0..] == topic;
  }

  lemma WalkTail(sub: string, topic: string, s: nat, t: nat)
    requires Walk(sub, topic, s, t) && s < |sub|
    ensures sub[s] == '+' ==> (s == 0 || sub[s - 1] == '/') && (s + 1 == |sub| || sub[s + 1] == '/')
    ensures sub[s] == '#' ==> (s == 0 || sub[s - 1] == '/') && s + 1 == |sub|
    ensures GoodTail(sub[s + 1..], sub[s] == '/')
    ensures forall k :: s <= k < |sub| - 1 ==> sub[k] != '#'
    ensures t < |topic| ==> topic[t] != '+' && topic[t] != '#'
  {
    assert sub[s..][1..] == sub[s + 1..];
    HashOnlyLast(sub[s..], s == 0 || sub[s - 1] == '/');
    forall k | s <= k < |sub| - 1 ensures sub[k] != '#' {
      assert sub[s..][k - s] == sub[k];
    }
  }

  lemma WalkEqual(sub: string, topic: string, s: nat, t: nat)
    requires Walk(sub, topic, s, t) && s < |sub| && t < |topic| && sub[s] == topic[t]
    ensures Walk(sub, topic, s + 1, t + 1)
  {
    WalkTail(sub, topic, s, t);
    assert sub[s..][1..] == sub[s + 1..] && topic[t..][1..] == topic[t + 1..];
    EqualCharacterStep(sub[s..], topic[t..]);
  }

  lemma WalkPlus(sub: string, topic: string, s: nat, t: nat, u: nat)
    requires Walk(sub, topic, s, t) && s < |sub| && sub[s] == '+'
    requires t <= u <= |topic| && (u == |topic| || topic[u] == '/')
    requires forall k :: t <= k < u ==> topic[k] != '/'
    ensures Walk(sub, topic, s + 1, u)
  {
    WalkTail(sub, topic, s, t);
    assert sub[s..][1..] == sub[s + 1..];
    assert topic[t..u] + topic[u..] == topic[t..];
    PlusStep(sub[s..], topic[u..], topic[t..u]);
  }

  lemma HashMatches(filter: string, levels: seq<string>)
    requires |filter| == 1 && filter[0] == '#'
    ensures LevelMatch(Levels(filter), levels)
  {
    FirstLevelChars(filter);
    var first := Levels(filter)[0];
    assert |first| == 1 && first == "#";
  }

  lemma WalkHash(sub: string, topic: string, s: nat, t: nat)
    requires Walk(sub, topic, s, t) && s < |sub| && sub[s] == '#'
    ensures LevelMatch(Levels(sub), Levels(topic))
  {
    WalkTail(sub, topic, s, t);
    HashMatches(sub[s..], Levels(topic[t..]));
  }

  lemma {:induction false} WalkMismatch(sub: string, topic: string, s: nat, t: nat)
    requires Walk(sub, topic, s, t) && s < |sub| && sub[s] != '+' && sub[s] != '#'
    requires t == |topic| || sub[s] != topic[t]
    ensures LevelMatch(Levels(sub), Levels(topic)) <==>
            t == |topic| && s + 2 <= |sub| && sub[s] == '/' && sub[s + 1] == '#'
  {
    MismatchStep(sub[s..], topic[t..]);
    if s + 2 <= |sub| && sub[s] == '/' && sub[s + 1] == '#' {
      WalkTail(sub, topic, s, t);
      assert sub[s + 1..][0] == '#';
      assert sub[s..] == "/#";
    }
  }

  lemma {:induction false} WalkEnds(sub: string, topic: string, t: nat)
    requires Walk(sub, topic, |sub|, t)
    ensures LevelMatch(Levels(sub), Levels(topic)) <==> t == |topic|
  {
    EndOfFilter(topic[t..]);
  }

  /** After `x` was compared up to its end, `x/#` still matches: the parent rule. */
  lemma WalkParent(sub: string, topic: string, s: nat, t: nat)
    requires Walk(sub, topic, s, t) && t + 1 == |topic| && s + 3 == |sub| && sub[s] == topic[t]
    requires sub[s + 1] == '/' && sub[s + 2] == '#'
    ensures LevelMatch(Levels(sub), Levels(topic))
  {
    WalkEqual(sub, topic, s, t);
    WalkMismatch(sub, topic, s + 1, t + 1);
  }

  /** A last `+` against an empty last level. */
  lemma {:induction false} WalkLastPlus(sub: string, topic: string, s: nat)
    requires Walk(sub, topic, s, |topic|) && s + 1 == |sub| && sub[s] == '+'
    ensures LevelMatch(Levels(sub), Levels(topic))
  {
    WalkPlus(sub, topic, s, |topic|, |topic|);
    WalkEnds(sub, topic, |topic|);
  }

  /** The inner walk of the `+` case: to the next `/` or the end of the topic. */
  method SkipLevel(topic: string, start: nat) returns (stop: nat, badTopic: bool)
    requires start <= |topic|
    ensures start <= stop <= |topic|
    ensures forall k :: start <= k < stop ==> topic[k] != '/' && topic[k] != '+' && topic[k] != '#'
    ensures badTopic ==> stop < |topic| && (topic[stop] == '+' || topic[stop] == '#')
    ensures !badTopic ==> stop == |topic| || topic[stop] == '/'
  {
    stop := start;
    while stop < |topic| && topic[stop] != '/'
      invariant start <= stop <= |topic|
      invariant forall k :: start <= k < stop ==> topic[k] != '/' && topic[k] != '+' && topic[k] != '#'
    {
      if topic[stop] == '+' || topic[stop] == '#' { return stop, true; }
      stop := stop + 1;
    }
    return stop, false;
  }

  /** The walk that looks for a misplaced `#` once the match has failed. */
  method ScanFilter(sub: string, start: nat) returns (rc: Rc)
    requires start <= |sub|
    ensures rc == (if exists k :: start <= k < |sub| - 1 && sub[k] == '#' then Inval else Success)
  {
    var s := start;
    while s < |sub|
      invariant start <= s <= |sub|
      invariant forall k :: start <= k < s && k < |sub| - 1 ==> sub[k] != '#'
    {
      if sub[s] == '#' && s + 1 < |sub| { return Inval; }
      s := s + 1;
    }
    return Success;
  }

  /** A valid filter holds no `#` before its last character. */
  lemma {:induction false} HashOnlyLast(s: string, atStart: bool)
    requires GoodTail(s, atStart)
    ensures forall k :: 0 <= k < |s| - 1 ==> s[k] != '#'
  {
    if s != "" {
      HashOnlyLast(s[1..], s[0] == '/');
      forall k | 0 <= k < |s| - 1 ensures s[k] != '#' {
        if k > 0 { assert s[k] == s[1..][k - 1]; }
      }
    }
  }

  /** `mosquitto_topic_matches_sub2`. Every read is at or before a terminator. */
  method TopicMatchesSub(sub: CString, topic: CString) returns (rc: Rc, result: bool)
    ensures sub == "" || topic == "" ==> rc == Inval && !result
    ensures sub != "" && topic != "" && ValidFilter(sub) && WildcardFree(topic) ==>
              rc == Success && result == Matches(sub, topic)
    // whatever the filter, a topic with a wildcard is never matched, and an error is no match
    ensures result ==> WildcardFree(topic)
    ensures rc == Success || (rc == Inval && !result)
  {
    if sub == "" || topic == "" {
      return Inval, false;
    }
    if (sub[0] == '$' && topic[0] != '$') || (topic[0] == '$' && sub[0] != '$') {
      return Success, false;
    }
    hide Levels, LevelMatch, ValidFilter, WildcardFree;
    rc, result := WalkBoth(sub, topic);
    if result { CleanIsWildcardFree(topic); }
  }

  /** No wildcard among the first `n` characters. */
  ghost predicate CleanUpTo(topic: string, n: nat)
    requires n <= |topic|
  {
    forall k :: 0 <= k < n ==> topic[k] != '+' && topic[k] != '#'
  }

  lemma CleanIsWildcardFree(topic: string)
    requires CleanUpTo(topic, |topic|)
    ensures WildcardFree(topic)
  {}

  /** The loop of `mosquitto_topic_matches_sub2`. */
  method WalkBoth(sub: CString, topic: CString) returns (rc: Rc, result: bool)
    requires sub != "" && topic != ""
    ensures ValidFilter(sub) && WildcardFree(topic) ==> rc == Success && result == LevelMatch(Levels(sub), Levels(topic))
    ensures result ==> CleanUpTo(topic, |topic|)
    ensures rc == Success || (rc == Inval && !result)
  {
    hide Levels, LevelMatch, GoodTail, ValidFilter, WildcardFree, Walk;
    ghost var good := ValidFilter(sub) && WildcardFree(topic);
    if good { WalkStarts(sub, topic); }
    var spos, tpos := 0, 0;
    while spos < |sub|
      invariant 0 <= spos <= |sub| && 0 <= tpos <= |topic|
      invariant CleanUpTo(topic, tpos)
      invariant good ==> Walk(sub, topic, spos, tpos)
      invariant spos == |sub| ==> tpos < |topic|
      // "x/#" against "x" was answered when the last character of "x" was compared
      invariant tpos == |topic| && spos + 2 == |sub| && sub[spos] == '/' && sub[spos + 1] == '#' ==>
                  spos > 0 && sub[spos - 1] == '+'
      decreases |sub| - spos
    {
      if good { WalkTail(sub, topic, spos, tpos); }
      if tpos < |topic| && (topic[tpos] == '+' || topic[tpos] == '#') {
        return Inval, false;
      }
      if tpos == |topic| || sub[spos] != topic[tpos] {
        if sub[spos] == '+' {
          if spos > 0 && sub[spos - 1] != '/' { return Inval, false; }
          if spos + 1 < |sub| && sub[spos + 1] != '/' { return Inval, false; }
          ghost var levelStart := tpos;
          spos := spos + 1;
          var badTopic;
          tpos, badTopic := SkipLevel(topic, tpos);
          if badTopic { return Inval, false; }
          if good { WalkPlus(sub, topic, spos - 1, levelStart, tpos); }
          if tpos == |topic| && spos == |sub| {
            if good { WalkEnds(sub, topic, tpos); }
            return Success, true;
          }
        } else if sub[spos] == '#' {
          if spos > 0 && sub[spos - 1] != '/' { return Inval, false; }
          if spos + 1 < |sub| { return Inval, false; }
          rc := ScanTopic(topic, tpos);
          if good { WalkHash(sub, topic, spos, tpos); }
          return rc, rc == Success;
        } else {
          if good { WalkMismatch(sub, topic, spos, tpos); }
          if tpos == |topic| && spos > 0 && sub[spos - 1] == '+' && sub[spos] == '/'
             && spos + 1 < |sub| && sub[spos + 1] == '#'
          {
            return Success, true;
          }
          assert good ==> !LevelMatch(Levels(sub), Levels(topic));
          // No match at this point, but the rest of the filter may be invalid.
          rc := ScanFilter(sub, spos);
          return rc, false;
        }
      } else {
        if tpos + 1 == |topic| && spos + 3 == |sub| && sub[spos + 1] == '/' && sub[spos + 2] == '#' {
          if good { WalkParent(sub, topic, spos, tpos); }
          return Success, true;
        }
        if good { WalkEqual(sub, topic, spos, tpos); }
        spos := spos + 1;
        tpos := tpos + 1;
        if spos == |sub| && tpos == |topic| {
          if good { WalkEnds(sub, topic, tpos); }
          return Success, true;
        } else if tpos == |topic| && spos < |sub| && sub[spos] == '+' && spos + 1 == |sub| {
          if good { WalkTail(sub, topic, spos, tpos); }
          if spos > 0 && sub[spos - 1] != '/' { return Inval, false; }
          if good { WalkLastPlus(sub, topic, spos); }
          return Success, true;
        }
      }
    }
    if good { WalkEnds(sub, topic, tpos); }
    rc := ScanTopic(topic, tpos);
    return rc, false;
  }

  // ---------- The tokeniser ----------

  /** What the tokeniser stores for a level: an empty one is left as a null pointer. */
  function Slot(level: string): Option<string> {
    if level == "" then None else Some(level)
  }

  /** The slots the tokeniser fills. */
  function Tokens(levels: seq<string>): (tokens: seq<Option<string>>)
    ensures |tokens| == |levels|
  {
    seq(|levels|, i requires 0 <= i < |levels| => Slot(levels[i]))
  }

  /** What a caller reads back from the slots. */
  function Untokenise(tokens: seq<Option<string>>): (levels: seq<string>)
    ensures |levels| == |tokens|
  {
    seq(|tokens|, i requires 0 <= i < |tokens| => if tokens[i].None? then "" else tokens[i].value)
  }

  /** Joining the tokeniser's slots with `/` gives the string back. */
  lemma {:induction false} TokensRoundTrip(s: string)
    ensures Untokenise(Tokens(Levels(s))) == Levels(s)
    ensures Join(Untokenise(Tokens(Levels(s)))) == s
  {
    JoinLevels(s);
  }

  /** The level that ends at `stop`, and the levels behind it. */
  lemma NextLevel(s: string, start: nat, stop: nat)
    requires start <= stop <= |s|
    requires forall k :: start <= k < stop ==> s[k] != '/'
    requires stop == |s| || s[stop] == '/'
    ensures Levels(s[start..]) == [s[start..stop]] + (if stop == |s| then [] else Levels(s[stop + 1..]))
  {
    assert s[start..stop] + s[stop..] == s[start..];
    LevelsAfterPlain(s[start..stop], s[stop..]);
    if stop < |s| {
      assert s[stop..][1..] == s[stop + 1..];
      assert s[start..stop] + "" == s[start..stop];
    } else {
      assert s[start..stop] + "" == s[start..stop];
    }
  }

  lemma NextToken(s: string, start: nat, stop: nat, levels: seq<string>, hier: nat)
    requires start <= stop <= |s| && hier <= |levels|
    requires forall k :: start <= k < stop ==> s[k] != '/'
    requires stop == |s| || s[stop] == '/'
    requires Levels(s[start..]) == levels[hier..]
    ensures hier < |levels| && levels[hier] == s[start..stop]
    ensures if stop == |s| then hier + 1 == |levels| else Levels(s[stop + 1..]) == levels[hier + 1..]
  {
    NextLevel(s, start, stop);
    assert levels[hier..][0] == levels[hier];
    assert levels[hier..][1..] == levels[hier + 1..];
  }

  method CountLevels(s: string) returns (hierCount: nat)
    ensures hierCount == |Levels(s)|
  {
    hierCount := 1;
    for i := 0 to |s|
      invariant hierCount == 1 + SlashCount(s[..i])
    {
      assert s[..i + 1][..i] == s[..i];
      if s[i] == '/' { hierCount := hierCount + 1; }
    }
    assert s[..|s|] == s;
    SlashCountIsLevels(s);
  }

  method CopyLevel(s: string, start: nat, stop: nat) returns (token: string)
    requires start <= stop <= |s|
    ensures token == s[start..stop]
  {
    token := "";
    for j := start to stop
      invariant token == s[start..j]
    {
      token := token + [s[j]];
    }
  }

  /** `mosquitto_sub_topic_tokenise`: `topics` are the allocated slots, `count` their number. */
  method Tokenise(subtopic: CString) returns (topics: array<Option<string>>, count: nat)
    ensures fresh(topics) && count == topics.Length
    ensures topics[..] == Tokens(Levels(subtopic))
    ensures Join(Untokenise(topics[..])) == subtopic
  {
    hide Levels, Join, Untokenise;
    var len := |subtopic|;
    var hierCount := CountLevels(subtopic);
    topics := new Option<string>[hierCount](_ => None);
    ghost var levels := Levels(subtopic);
    var start, hier := 0, 0;
    assert subtopic[0..] == subtopic && levels[0..] == levels;
    for i := 0 to len + 1
      invariant 0 <= start && hier <= hierCount
      invariant i <= len ==> start <= i && forall k :: start <= k < i ==> subtopic[k] != '/'
      invariant i <= len ==> Levels(subtopic[start..]) == levels[hier..]
      invariant i == len + 1 ==> hier == hierCount
      invariant forall k :: 0 <= k < hier ==> topics[k] == Slot(levels[k])
      invariant forall k :: hier <= k < hierCount ==> topics[k] == None
    {
      if i == len || subtopic[i] == '/' {
        var stop := i;
        NextToken(subtopic, start, stop, levels, hier);
        if start != stop {
          var token := CopyLevel(subtopic, start, stop);
          topics[hier] := Some(token);
        }
        start := i + 1;
        hier := hier + 1;
      }
    }
    count := hierCount;
    assert topics[..] == Tokens(levels);
    TokensRoundTrip(subtopic);
  }
}

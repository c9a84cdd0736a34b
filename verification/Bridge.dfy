/** Topic remapping of a bridge connection: prefixes are exchanged, out and in. */
module Bridge {
  import opened Basics
  import opened Topics
  import opened Matcher

  datatype Direction = Out | In | Both

  /** One `topic` line of a bridge. An empty prefix or pattern stands for the null pointer the
      configuration stores for `""`; the parser refuses an entry without pattern unless it has
      both prefixes. */
  datatype Entry = Entry(pattern: CString, direction: Direction, localPrefix: CString, remotePrefix: CString) {
    predicate Configured() {
      && (pattern == "" ==> localPrefix != "" && remotePrefix != "")
      && WildcardFree(localPrefix) && WildcardFree(remotePrefix)
    }
  }

  type BridgeEntry = e: Entry | e.Configured() witness Entry("#", Out, "", "")

  /** The filter an entry applies on a side: prefix and pattern concatenated. */
  function Filter(e: BridgeEntry, side: Direction): (f: CString)
    requires side != Both
    ensures f != ""
  {
    if side == Out then e.localPrefix + e.pattern else e.remotePrefix + e.pattern
  }

  predicate Enabled(e: BridgeEntry, side: Direction) {
    (e.direction == Both || e.direction == side) && (e.localPrefix != "" || e.remotePrefix != "")
  }

  function Strip(prefix: string, topic: string): string {
    if prefix <= topic then topic[|prefix|..] else topic
  }

  function Remap(e: BridgeEntry, side: Direction, topic: string): string
    requires side != Both
  {
    if side == Out then e.remotePrefix + Strip(e.localPrefix, topic)
    else e.localPrefix + Strip(e.remotePrefix, topic)
  }

  predicate Applies(e: BridgeEntry, side: Direction, topic: string)
    requires side != Both && topic != ""
  {
    Enabled(e, side) && Matches(Filter(e, side), topic)
  }

  /** The first entry that applies decides; without one the topic stays as it is. */
  function MapTopic(entries: seq<BridgeEntry>, side: Direction, topic: string): string
    requires side != Both && topic != ""
  {
    if entries == [] then topic
    else if Applies(entries[0], side, topic) then Remap(entries[0], side, topic)
    else MapTopic(entries[1..], side, topic)
  }

  lemma MapFrom(entries: seq<BridgeEntry>, i: nat, side: Direction, topic: string)
    requires side != Both && topic != "" && i < |entries|
    ensures MapTopic(entries[i..], side, topic) ==
            if Applies(entries[i], side, topic) then Remap(entries[i], side, topic) else MapTopic(entries[i + 1..], side, topic)
  {
    assert entries[i..][1..] == entries[i + 1..];
  }

  lemma MapNone(side: Direction, topic: string)
    requires side != Both && topic != ""
    ensures MapTopic([], side, topic) == topic
  {}

  /** On the way out an entry for that direction or for both exchanges its local prefix for its remote one,
      and on the way in the other way round. */
  lemma PrefixesExchanged(e: BridgeEntry, topic: string)
    requires topic != "" && (e.localPrefix != "" || e.remotePrefix != "")
    ensures e.direction != In && Matches(e.localPrefix + e.pattern, topic) && e.localPrefix <= topic ==>
              MapTopic([e], Out, topic) == e.remotePrefix + topic[|e.localPrefix|..]
    ensures e.direction != Out && Matches(e.remotePrefix + e.pattern, topic) && e.remotePrefix <= topic ==>
              MapTopic([e], In, topic) == e.localPrefix + topic[|e.remotePrefix|..]
    ensures !Matches(e.localPrefix + e.pattern, topic) ==> MapTopic([e], Out, topic) == topic
    ensures !Matches(e.remotePrefix + e.pattern, topic) ==> MapTopic([e], In, topic) == topic
  {
    hide Matches;
    MapNone(Out, topic);
    MapNone(In, topic);
    assert [e][1..] == [];
  }

  /** Entries for the other direction map nothing. */
  lemma {:induction false} OtherDirectionMapsNothing(entries: seq<BridgeEntry>, topic: string)
    requires topic != ""
    ensures (forall i :: 0 <= i < |entries| ==> entries[i].direction == In) ==> MapTopic(entries, Out, topic) == topic
    ensures (forall i :: 0 <= i < |entries| ==> entries[i].direction == Out) ==> MapTopic(entries, In, topic) == topic
  {
    hide Matches;
    if entries != [] {
      assert forall i :: 0 <= i < |entries| - 1 ==> entries[1..][i] == entries[i + 1];
      OtherDirectionMapsNothing(entries[1..], topic);
    }
  }

  predicate ValidFilters(entries: seq<BridgeEntry>, side: Direction)
    requires side != Both
  {
    forall i :: 0 <= i < |entries| ==> ValidFilter(Filter(entries[i], side))
  }

  /** The remapping loop of `send__publish`; a failing match ends it with that error. */
  method MapOutgoing(entries: seq<BridgeEntry>, topic: CString) returns (rc: Rc, mapped: CString)
    ensures topic != "" && WildcardFree(topic) && ValidFilters(entries, Out) ==>
              rc == Success && mapped == MapTopic(entries, Out, topic)
    ensures topic == "" && (exists i :: 0 <= i < |entries| && Enabled(entries[i], Out)) ==> rc == Inval
    ensures (forall i :: 0 <= i < |entries| ==> !Enabled(entries[i], Out)) ==> rc == Success && mapped == topic
  {
    hide Levels, LevelMatch, ValidFilter, WildcardFree, Matches, MapTopic;
    mapped := topic;
    ghost var good := topic != "" && WildcardFree(topic) && ValidFilters(entries, Out);
    assert entries[0..] == entries;
    if topic != "" { MapNone(Out, topic); }
    for i := 0 to |entries|
      invariant good ==> MapTopic(entries, Out, topic) == MapTopic(entries[i..], Out, topic)
      invariant topic == "" ==> forall k :: 0 <= k < i ==> !Enabled(entries[k], Out)
    {
      var cur := entries[i];
      if good { MapFrom(entries, i, Out, topic); }
      if (cur.direction == Both || cur.direction == Out) && (cur.remotePrefix != "" || cur.localPrefix != "") {
        var match_;
        rc, match_ := TopicMatchesSub(Filter(cur, Out), topic);
        if rc != Success { return rc, topic; }
        if match_ {
          if cur.localPrefix != "" && cur.localPrefix <= mapped {
            mapped := mapped[|cur.localPrefix|..];
          }
          if cur.remotePrefix != "" {
            mapped := cur.remotePrefix + mapped;
          }
          return Success, mapped;
        }
      }
    }
    assert entries[|entries|..] == [];
    return Success, mapped;
  }

  /** The remapping loop of the broker's `handle__publish`. */
  method MapIncoming(entries: seq<BridgeEntry>, topic: CString) returns (rc: Rc, mapped: CString)
    ensures topic != "" && WildcardFree(topic) && ValidFilters(entries, In) ==>
              rc == Success && mapped == MapTopic(entries, In, topic)
    ensures topic == "" && (exists i :: 0 <= i < |entries| && Enabled(entries[i], In)) ==> rc == Inval
    ensures (forall i :: 0 <= i < |entries| ==> !Enabled(entries[i], In)) ==> rc == Success && mapped == topic
  {
    hide Levels, LevelMatch, ValidFilter, WildcardFree, Matches, MapTopic;
    mapped := topic;
    ghost var good := topic != "" && WildcardFree(topic) && ValidFilters(entries, In);
    var i := 0;
    assert entries[0..] == entries;
    if topic != "" { MapNone(In, topic); }
    while i < |entries|
      invariant 0 <= i <= |entries| && mapped == topic
      invariant good ==> MapTopic(entries, In, topic) == MapTopic(entries[i..], In, topic)
      invariant topic == "" ==> forall k :: 0 <= k < i ==> !Enabled(entries[k], In)
    {
      var cur := entries[i];
      if good { MapFrom(entries, i, In, topic); }
      if (cur.direction == Both || cur.direction == In) && (cur.remotePrefix != "" || cur.localPrefix != "") {
        var match_;
        rc, match_ := TopicMatchesSub(Filter(cur, In), topic);
        if rc != Success { return rc, topic; }
        if match_ {
          if cur.remotePrefix != "" && cur.remotePrefix <= topic {
            mapped := topic[|cur.remotePrefix|..];
          }
          if cur.localPrefix != "" {
            mapped := cur.localPrefix + mapped;
          }
          return Success, mapped;
        }
      }
      i := i + 1;
    }
    assert entries[|entries|..] == [];
    return Success, mapped;
  }

  // ---------- Round trip ----------

  /** A common wildcard-free prefix does not take part in the level match. */
  lemma {:induction false} CommonPrefix(prefix: string, filter: string, topic: string)
    requires WildcardFree(prefix)
    requires ValidFilter(prefix + filter)
    ensures LevelMatch(Levels(prefix + filter), Levels(prefix + topic)) == LevelMatch(Levels(filter), Levels(topic))
  {
    if prefix == "" {
      assert prefix + filter == filter && prefix + topic == topic;
    } else {
      var f, t := prefix + filter, prefix + topic;
      assert f[1..] == prefix[1..] + filter && t[1..] == prefix[1..] + topic;
      assert f[0] == prefix[0] && t[0] == prefix[0];
      GoodTailIsValidLevels(f);
      GoodTailIsValidLevels(f[1..]);
      EqualCharacterStep(f, t);
      CommonPrefix(prefix[1..], filter, topic);
    }
  }

  /** Exchanging one common prefix for another one keeps the level match. */
  lemma {:induction false} PrefixSwap(p: string, q: string, filter: string, topic: string)
    requires WildcardFree(p) && WildcardFree(q)
    requires ValidFilter(p + filter) && ValidFilter(q + filter)
    ensures LevelMatch(Levels(p + filter), Levels(p + topic)) == LevelMatch(Levels(q + filter), Levels(q + topic))
  {
    CommonPrefix(p, filter, topic);
    CommonPrefix(q, filter, topic);
  }

  /** What stops the answer to a mapped topic from being recognised: the remote side has no
      prefix, and what is left of the topic is empty or disagrees with the pattern about `$`. */
  predicate LosesMatch(e: BridgeEntry, topic: string)
    requires e.localPrefix <= topic
  {
    var rest := topic[|e.localPrefix|..];
    e.remotePrefix == "" && e.localPrefix != "" &&
    (rest == "" || (e.pattern[0] == '$') != (rest[0] == '$'))
  }

  /** The image of a matching topic is matched on the way back exactly if the entry does not
      lose the match. */
  lemma ImageMatches(e: BridgeEntry, topic: string)
    requires e.localPrefix <= topic && topic != ""
    requires ValidFilter(Filter(e, Out)) && ValidFilter(Filter(e, In))
    requires Matches(Filter(e, Out), topic)
    ensures Remap(e, Out, topic) != "" && Matches(Filter(e, In), Remap(e, Out, topic)) <==> !LosesMatch(e, topic)
  {
    var rest := topic[|e.localPrefix|..];
    assert topic == e.localPrefix + rest;
    PrefixSwap(e.localPrefix, e.remotePrefix, e.pattern, rest);
    if e.remotePrefix == "" {
      assert e.remotePrefix + rest == rest && e.remotePrefix + e.pattern == e.pattern;
      if e.localPrefix == "" { assert topic == rest; }
    }
  }

  /** Out and back in through the same entry gives the topic back. */
  lemma {:induction false} RoundTripThroughEntry(e: BridgeEntry, topic: string)
    requires e.localPrefix <= topic
    ensures Remap(e, In, Remap(e, Out, topic)) == topic
  {
    var rest := topic[|e.localPrefix|..];
    assert (e.remotePrefix + rest)[|e.remotePrefix|..] == rest;
    assert e.localPrefix + rest == topic;
  }

  /** A valid filter whose wildcard-free beginning is not a beginning of the topic matches the topic by
      the parent rule only. */
  lemma {:induction false} PrefixBeyondTopic(prefix: string, filter: string, topic: string)
    requires WildcardFree(prefix) && !(prefix <= topic)
    requires ValidFilter(prefix + filter)
    requires LevelMatch(Levels(prefix + filter), Levels(topic))
    ensures prefix == topic + "/" && filter == "#"
  {
    var f := prefix + filter;
    assert f[1..] == prefix[1..] + filter;
    assert f[0] == prefix[0];
    GoodTailIsValidLevels(f);
    GoodTailIsValidLevels(f[1..]);
    if topic == "" {
      NothingButParent(f);
      HashAlone(prefix[1..], filter);
      assert prefix == "/" == topic + "/";
    } else {
      if prefix[0] != topic[0] { DifferentStarts(f, topic); }
      EqualCharacterStep(f, topic);
      assert prefix[1..] <= topic[1..] ==> prefix <= topic;
      PrefixBeyondTopic(prefix[1..], filter, topic[1..]);
      assert topic == [topic[0]] + topic[1..];
      assert prefix == [topic[0]] + prefix[1..];
    }
  }

  lemma NothingButParent(f: string)
    requires f != "" && f[0] != '+' && f[0] != '#' && LevelMatch(Levels(f), Levels(""))
    ensures f == "/#"
  {
    FirstOfLevel(f);
    var rest := Levels(f[1..]);
    assert Levels(f)[1..] == rest;
    assert rest == ["#"];
    JoinLevels(f[1..]);
    assert f == [f[0]] + f[1..];
  }

  lemma FirstOfLevel(s: string)
    requires s != ""
    ensures s[0] != '/' ==> Levels(s)[0] != "" && Levels(s)[0][0] == s[0]
    ensures s[0] == '/' ==> Levels(s)[0] == ""
  {}

  lemma HashAlone(p: string, q: string)
    requires WildcardFree(p) && p + q == "#"
    ensures p == "" && q == "#"
  {
    assert |p| + |q| == 1 && '#' in "#";
    assert p == "" ==> q == p + q;
    assert q == "" ==> p == p + q;
  }

  lemma DifferentStarts(f: string, topic: string)
    requires f != "" && topic != "" && f[0] != '+' && f[0] != '#' && f[0] != topic[0]
    ensures !LevelMatch(Levels(f), Levels(topic))
  {
    FirstOfLevel(f);
    FirstOfLevel(topic);
  }

  /** When out and back in gives the topic back: the entry does not lose the match; or the topic is the
      parent of the local prefix, which is then not stripped, and nothing is changed either way. */
  predicate ComesBack(e: BridgeEntry, topic: string)
    requires topic != ""
  {
    if e.localPrefix <= topic then !LosesMatch(e, topic) else e.remotePrefix == "" && topic[0] == '$'
  }

  /** The image of a topic name is again a C string without wildcards. */
  lemma ImageIsTopic(e: BridgeEntry, side: Direction, topic: CString)
    requires side != Both && WildcardFree(topic)
    ensures WildcardFree(Remap(e, side, topic)) && '\0' !in Remap(e, side, topic)
  {}

  /** One both-direction entry: the round trip is the identity on a matching topic exactly under this
      condition; in any case the image can be given to the way in. */
  lemma BridgeRoundTrip(e: BridgeEntry, topic: CString)
    requires e.direction == Both && (e.localPrefix != "" || e.remotePrefix != "")
    requires topic != "" && WildcardFree(topic)
    requires ValidFilter(Filter(e, Out)) && ValidFilter(Filter(e, In))
    requires Matches(Filter(e, Out), topic)
    ensures var image := MapTopic([e], Out, topic);
            WildcardFree(image) && '\0' !in image &&
            (image != "" && MapTopic([e], In, image) == topic <==> ComesBack(e, topic))
  {
    hide Levels, LevelMatch, ValidFilter;
    var image := MapTopic([e], Out, topic);
    assert image == Remap(e, Out, topic);
    ImageIsTopic(e, Out, topic);
    if e.localPrefix <= topic {
      RoundTripThroughEntry(e, topic);
      ImageMatches(e, topic);
      if image != "" && !Matches(Filter(e, In), image) {
        assert MapTopic([e], In, image) == MapTopic([], In, image) == image;
        assert |image| < |topic|;
      }
    } else {
      ParentRoundTrip(e, topic);
    }
  }

  /** The case of the parent: `a` with local prefix `a/` and pattern `#`. */
  lemma ParentRoundTrip(e: BridgeEntry, topic: CString)
    requires e.direction == Both && topic != "" && WildcardFree(topic) && !(e.localPrefix <= topic)
    requires ValidFilter(Filter(e, Out)) && Matches(Filter(e, Out), topic)
    ensures var image := Remap(e, Out, topic);
            image != "" && MapTopic([e], In, image) == topic <==> e.remotePrefix == "" && topic[0] == '$'
  {
    hide Levels, LevelMatch, ValidFilter;
    var image := Remap(e, Out, topic);
    PrefixBeyondTopic(e.localPrefix, e.pattern, topic);
    assert image == e.remotePrefix + topic;
    assert MapTopic([e], In, image) == if Applies(e, In, image) then Remap(e, In, image) else MapTopic([], In, image);
    if e.remotePrefix == "" {
      assert image == topic && Filter(e, In) == "#";
      HashMatches("#", Levels(topic));
    }
    assert |e.localPrefix + Strip(e.remotePrefix, image)| > |topic|;
  }

  /** What the peer sends back when a message for a topic went out to it: both loops, one after the
      other. */
  method SendAndEcho(entries: seq<BridgeEntry>, topic: CString) returns (rc: Rc, image: CString, back: CString)
    requires topic != "" && WildcardFree(topic)
    requires ValidFilters(entries, Out) && ValidFilters(entries, In)
    ensures rc == Success <==> image != "" || forall i :: 0 <= i < |entries| ==> !Enabled(entries[i], In)
    ensures image == MapTopic(entries, Out, topic)
    ensures image != "" && rc == Success ==> back == MapTopic(entries, In, image)
    ensures |entries| == 1 && entries[0].direction == Both && Applies(entries[0], Out, topic) ==>
              (image != "" && back == topic <==> ComesBack(entries[0], topic))
  {
    rc, image := MapOutgoing(entries, topic);
    MapKeepsTopic(entries, Out, topic);
    rc, back := MapIncoming(entries, image);
    if |entries| == 1 && entries[0].direction == Both && Applies(entries[0], Out, topic) {
      assert entries == [entries[0]];
      BridgeRoundTrip(entries[0], topic);
    }
  }

  lemma {:induction false} MapKeepsTopic(entries: seq<BridgeEntry>, side: Direction, topic: CString)
    requires side != Both && topic != "" && WildcardFree(topic)
    ensures WildcardFree(MapTopic(entries, side, topic)) && '\0' !in MapTopic(entries, side, topic)
  {
    hide Applies;
    if entries != [] {
      ImageIsTopic(entries[0], side, topic);
      MapKeepsTopic(entries[1..], side, topic);
    }
  }

  /** An entry that loses the match: with pattern `#`, local prefix `a/` and no remote prefix, the topic
      `a/$x` goes out as `$x`, which the filter `#` does not match on the way in. */
  lemma LostMatchExample()
    ensures var e := Entry("#", Both, "a/", "");
            Applies(e, Out, "a/$x") && LosesMatch(e, "a/$x") &&
            MapTopic([e], Out, "a/$x") == "$x" && MapTopic([e], In, "$x") == "$x"
  {
    hide Levels, LevelMatch, ValidFilter, GoodTail;
    var e: BridgeEntry := Entry("#", Both, "a/", "");
    var t := "a/$x";
    HashMatches("#", Levels("$x"));
    SlashPrefixValid("a/", "#") by { HashValid(); }
    assert "a/" + "$x" == t && "a/" + "#" == "a/#";
    CommonPrefix("a/", "#", "$x");
    assert t[|e.localPrefix|..] == "$x";
    assert MapTopic([e], Out, t) == Remap(e, Out, t) == "" + "$x";
    assert Filter(e, In) == "" + "#" == "#";
    assert MapTopic([e], In, "$x") == MapTopic([], In, "$x");
  }

  lemma HashValid()
    ensures ValidFilter("#")
  {
    GoodTailIsValidLevels("#");
  }

  /** With both prefixes present nothing is lost: the round trip is the identity. */
  lemma BridgeRoundTripBothPrefixes(e: BridgeEntry, topic: CString)
    requires e.direction == Both && e.localPrefix != "" && e.remotePrefix != ""
    requires e.localPrefix <= topic && WildcardFree(topic)
    requires ValidFilter(Filter(e, Out)) && ValidFilter(Filter(e, In))
    requires Matches(Filter(e, Out), topic)
    ensures var image := MapTopic([e], Out, topic);
            image != "" && WildcardFree(image) && '\0' !in image && MapTopic([e], In, image) == topic
  {
    BridgeRoundTrip(e, topic);
  }

  /** The position of the entry that decides, or the number of entries if none applies. */
  function Chosen(entries: seq<BridgeEntry>, side: Direction, topic: string): (i: nat)
    requires side != Both && topic != ""
    ensures i <= |entries|
  {
    if entries == [] then 0
    else if Applies(entries[0], side, topic) then 0
    else 1 + Chosen(entries[1..], side, topic)
  }

  lemma {:induction false} ChosenDecides(entries: seq<BridgeEntry>, side: Direction, topic: string)
    requires side != Both && topic != ""
    ensures var i := Chosen(entries, side, topic);
            MapTopic(entries, side, topic) == if i < |entries| then Remap(entries[i], side, topic) else topic
  {
    if entries != [] && !Applies(entries[0], side, topic) {
      ChosenDecides(entries[1..], side, topic);
    }
  }

  lemma {:induction false} ChosenIsFirst(entries: seq<BridgeEntry>, side: Direction, topic: string)
    requires side != Both && topic != ""
    ensures var i := Chosen(entries, side, topic);
            (i < |entries| ==> Applies(entries[i], side, topic)) &&
            forall j :: 0 <= j < i ==> !Applies(entries[j], side, topic)
  {
    hide Applies;
    if entries != [] && !Applies(entries[0], side, topic) {
      ChosenIsFirst(entries[1..], side, topic);
      forall j | 0 <= j < Chosen(entries, side, topic) ensures !Applies(entries[j], side, topic) {
        if j > 0 { assert entries[j] == entries[1..][j - 1]; }
      }
    }
  }

  /** With several entries, of which the one that decides on the way out goes both ways and does not
      lose the match: it or an earlier one decides on the way in, and the round trip is the identity
      exactly if that entry undoes the mapping; it does if no earlier entry applies to the image. */
  lemma ListRoundTrip(entries: seq<BridgeEntry>, topic: string)
    requires topic != "" && ValidFilters(entries, Out) && ValidFilters(entries, In)
    requires Chosen(entries, Out, topic) < |entries|
    requires var e := entries[Chosen(entries, Out, topic)];
             e.direction == Both && e.localPrefix <= topic && !LosesMatch(e, topic)
    ensures var image := MapTopic(entries, Out, topic);
            image != "" &&
            var j := Chosen(entries, In, image);
            j <= Chosen(entries, Out, topic) &&
            (MapTopic(entries, In, image) == topic <==> Remap(entries[j], In, image) == topic) &&
            ((forall k :: 0 <= k < Chosen(entries, Out, topic) ==> !Applies(entries[k], In, image)) ==>
               MapTopic(entries, In, image) == topic)
  {
    var i := Chosen(entries, Out, topic);
    ChosenDecides(entries, Out, topic);
    ChosenIsFirst(entries, Out, topic);
    var e, image := entries[i], MapTopic(entries, Out, topic);
    ImageMatches(e, topic);
    ChosenDecides(entries, In, image);
    ChosenIsFirst(entries, In, image);
    assert Applies(e, In, image);
    RoundTripThroughEntry(e, topic);
  }

  /** A prefix that ends in `/` keeps every valid pattern valid. */
  lemma {:induction false} SlashPrefixValid(prefix: string, pattern: string)
    requires WildcardFree(prefix) && ValidFilter(pattern)
    requires prefix != "" ==> prefix[|prefix| - 1] == '/'
    ensures ValidFilter(prefix + pattern)
  {
    GoodTailIsValidLevels(pattern);
    GoodTailIsValidLevels(prefix + pattern);
    SlashPrefixGood(prefix, pattern, true);
  }

  lemma {:induction false} SlashPrefixGood(prefix: string, pattern: string, atStart: bool)
    requires WildcardFree(prefix) && GoodTail(pattern, true)
    requires if prefix == "" then atStart else prefix[|prefix| - 1] == '/'
    ensures GoodTail(prefix + pattern, atStart)
  {
    if prefix == "" {
      assert prefix + pattern == pattern;
    } else {
      assert (prefix + pattern)[1..] == prefix[1..] + pattern;
      assert prefix[0] in prefix;
      SlashPrefixGood(prefix[1..], pattern, prefix[0] == '/');
    }
  }
}

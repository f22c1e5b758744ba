/** Log filters and the string keys under which the web app stores their results. */
module LogKeys {
  import opened Options

  datatype Topic = Null | One(topic: string) | Many(topics: seq<string>)
  datatype EventFilter = EventFilter(address: Option<string>, topics: Option<seq<Topic>>, fromBlock: Option<nat>)

  // ----- split and join -----

  /** `s.split(c)` for a one-character separator: at least one piece. */
  function Split(s: string, c: char): (pieces: seq<string>)
    ensures pieces != []
  {
    if s == [] then [""]
    else
      var rest := Split(s[1..], c);
      if s[0] == c then [""] + rest else [[s[0]] + rest[0]] + rest[1..]
  }

  function Join(pieces: seq<string>, c: char): string {
    if pieces == [] then "" else if |pieces| == 1 then pieces[0] else pieces[0] + [c] + Join(pieces[1..], c)
  }

  function Count(s: string, c: char): nat {
    if s == [] then 0 else (if s[0] == c then 1 else 0) + Count(s[1..], c)
  }

  lemma {:induction false} JoinSplit(s: string, c: char)
    ensures Join(Split(s, c), c) == s
    decreases s
  {
    if s != [] {
      JoinSplit(s[1..], c);
      var rest := Split(s[1..], c);
      if s[0] == c {
        assert ([""] + rest)[1..] == rest;
        assert "" + [c] + s[1..] == s;
      } else {
        var pieces := [[s[0]] + rest[0]] + rest[1..];
        assert pieces[1..] == rest[1..];
        assert [s[0]] + s[1..] == s;
        if |rest| > 1 {
          assert [s[0]] + (rest[0] + [c] + Join(rest[1..], c)) == [s[0]] + rest[0] + [c] + Join(rest[1..], c);
        }
      }
    }
  }

  lemma {:induction false} SplitCounts(s: string, c: char)
    ensures |Split(s, c)| == Count(s, c) + 1
    decreases s
  {
    if s != [] {
      SplitCounts(s[1..], c);
    }
  }

  lemma {:induction false} CountConcat(a: string, b: string, c: char)
    ensures Count(a + b, c) == Count(a, c) + Count(b, c)
    decreases a
  {
    if a == [] {
      assert a + b == b;
    } else {
      assert (a + b)[1..] == a[1..] + b;
      CountConcat(a[1..], b, c);
    }
  }

  /** Splitting takes characters away, it adds none. */
  lemma {:induction false} PiecesCount(s: string, c: char, d: char)
    ensures forall i :: 0 <= i < |Split(s, c)| ==> Count(Split(s, c)[i], d) <= Count(s, d)
    ensures forall i :: 0 <= i < |Split(s, c)| ==> Count(Split(s, c)[i], c) == 0
    decreases s
  {
    if s != [] {
      PiecesCount(s[1..], c, d);
      var rest := Split(s[1..], c);
      assert ([s[0]] + rest[0])[1..] == rest[0];
    }
  }

  // ----- keys -----

  /** A missing topic is written as a NUL character, alternatives are joined with semicolons. */
  function TopicText(t: Topic): string {
    match t
    case Null => "\0"
    case One(topic) => if topic == "" then "\0" else topic
    case Many(topics) => Join(topics, ';')
  }

  function TopicTexts(topics: seq<Topic>): seq<string> {
    if topics == [] then [] else [TopicText(topics[0])] + TopicTexts(topics[1..])
  }

  function FilterToKey(filter: EventFilter): string {
    (if filter.address.Some? then filter.address.value else "") + ":"
    + (if filter.topics.Some? then Join(TopicTexts(filter.topics.value), '-') else "")
  }

  function ParseTopic(topic: string): Topic {
    var parts := Split(topic, ';');
    if |parts| == 1 then One(parts[0]) else Many(parts)
  }

  function ParseTopics(topics: seq<string>): seq<Topic> {
    if topics == [] then [] else [ParseTopic(topics[0])] + ParseTopics(topics[1..])
  }

  /** None where the code fails: there is nothing after a colon to read topics from. */
  function KeyToFilter(key: string): Option<EventFilter> {
    var pcs := Split(key, ':');
    if |pcs| < 2 then None
    else Some(EventFilter(if pcs[0] == "" then None else Some(pcs[0]), Some(ParseTopics(Split(pcs[1], '-'))), None))
  }

  // ----- round trip -----

  lemma {:induction false} TextsOfParsed(segments: seq<string>)
    ensures |TopicTexts(ParseTopics(segments))| == |segments|
    ensures forall i :: 0 <= i < |segments| ==>
              TopicTexts(ParseTopics(segments))[i] == if segments[i] == "" then "\0" else segments[i]
    decreases segments
  {
    if segments != [] {
      var t := segments[0];
      JoinSplit(t, ';');
      var topics := [ParseTopic(t)] + ParseTopics(segments[1..]);
      assert topics[1..] == ParseTopics(segments[1..]);
      TextsOfParsed(segments[1..]);
    }
  }

  lemma {:induction false} JoinLength(a: seq<string>, b: seq<string>, c: char)
    requires |a| == |b| && forall i :: 0 <= i < |a| ==> |a[i]| <= |b[i]|
    ensures |Join(a, c)| <= |Join(b, c)|
    ensures (exists i :: 0 <= i < |a| && |a[i]| < |b[i]|) ==> |Join(a, c)| < |Join(b, c)|
    decreases a
  {
    if |a| > 1 {
      JoinLength(a[1..], b[1..], c);
      if i :| 0 <= i < |a| && |a[i]| < |b[i]| {
        if i > 0 {
          assert a[1..][i - 1] == a[i] && b[1..][i - 1] == b[i];
        }
      }
    }
  }

  lemma {:induction false} JoinCount(pieces: seq<string>, c: char, d: char)
    requires d != c && forall i :: 0 <= i < |pieces| ==> Count(pieces[i], d) == 0
    ensures Count(Join(pieces, c), d) == 0
    decreases pieces
  {
    if |pieces| > 1 {
      JoinCount(pieces[1..], c, d);
      CountConcat(pieces[0], [c], d);
      CountConcat(pieces[0] + [c], Join(pieces[1..], c), d);
      assert [c][1..] == [];
    }
  }

  /** No segment between dashes is empty. */
  ghost predicate NoEmptySegment(topics: string) {
    forall i :: 0 <= i < |Split(topics, '-')| ==> Split(topics, '-')[i] != ""
  }

  lemma ParsedTopicsJoin(topics: string)
    ensures Join(TopicTexts(ParseTopics(Split(topics, '-'))), '-') == topics <==> NoEmptySegment(topics)
  {
    var segments := Split(topics, '-');
    var texts := TopicTexts(ParseTopics(segments));
    TextsOfParsed(segments);
    JoinSplit(topics, '-');
    if NoEmptySegment(topics) {
      assert texts == segments;
    } else {
      var i :| 0 <= i < |segments| && segments[i] == "";
      assert |segments[i]| < |texts[i]|;
      JoinLength(segments, texts, '-');
    }
  }

  lemma ParsedKeyHasOneColon(address: string, topics: string)
    requires Count(address, ':') == 0 && Count(topics, ':') == 0
    ensures Count(address + ":" + Join(TopicTexts(ParseTopics(Split(topics, '-'))), '-'), ':') == 1
  {
    var segments := Split(topics, '-');
    var texts := TopicTexts(ParseTopics(segments));
    TextsOfParsed(segments);
    PiecesCount(topics, '-', ':');
    forall i | 0 <= i < |texts| ensures Count(texts[i], ':') == 0 {
      assert "\0"[1..] == [];
    }
    JoinCount(texts, '-', ':');
    CountConcat(address, ":", ':');
    assert ":"[1..] == [];
    CountConcat(address + ":", Join(texts, '-'), ':');
  }

  predicate OneColon(key: string) {
    |Split(key, ':')| == 2
  }

  /** Reading a key and writing it again gives the same key. */
  predicate RoundTrips(key: string) {
    KeyToFilter(key).Some? && FilterToKey(KeyToFilter(key).value) == key
  }

  /**
   * A key is read back as itself if and only if it has exactly one colon and no empty segment after it. Otherwise
   * results fetched for the read filter are addressed to a different key.
   */
  lemma KeyRoundTripsIff(key: string)
    ensures RoundTrips(key) <==> OneColon(key) && NoEmptySegment(Split(key, ':')[1])
    ensures OneColon(key) <==> Count(key, ':') == 1
  {
    var pcs := Split(key, ':');
    SplitCounts(key, ':');
    JoinSplit(key, ':');
    if |pcs| >= 2 {
      ParsedTopicsJoin(pcs[1]);
      PiecesCount(key, ':', ':');
      ParsedKeyHasOneColon(pcs[0], pcs[1]);
      if |pcs| == 2 {
        assert pcs[1..] == [pcs[1]];
        assert key == pcs[0] + ":" + pcs[1];
        SamePrefix(pcs[0] + ":", Join(TopicTexts(ParseTopics(Split(pcs[1], '-'))), '-'), pcs[1]);
      }
    }
  }

  lemma SamePrefix(p: string, a: string, b: string)
    ensures p + a == p + b <==> a == b
  {
    if p + a == p + b {
      assert (p + a)[|p|..] == a && (p + b)[|p|..] == b;
    }
  }

  // ----- keys of filters -----

  lemma {:induction false} SplitConcat(a: string, b: string, c: char)
    requires Count(a, c) == 0
    ensures Split(a + [c] + b, c) == [a] + Split(b, c)
    decreases a
  {
    if a == [] {
      assert a + [c] + b == [c] + b;
      assert ([c] + b)[1..] == b;
    } else {
      var s := a + [c] + b;
      assert s[1..] == a[1..] + [c] + b;
      SplitConcat(a[1..], b, c);
      var rest := [a[1..]] + Split(b, c);
      assert rest[1..] == Split(b, c) && [a[0]] + a[1..] == a;
    }
  }

  lemma {:induction false} SplitWhole(a: string, c: char)
    requires Count(a, c) == 0
    ensures Split(a, c) == [a]
    decreases a
  {
    if a != [] {
      SplitWhole(a[1..], c);
      assert [a[0]] + a[1..] == a;
    }
  }

  lemma {:induction false} SplitJoin(pieces: seq<string>, c: char)
    requires pieces != [] && forall i :: 0 <= i < |pieces| ==> Count(pieces[i], c) == 0
    ensures Split(Join(pieces, c), c) == pieces
    decreases pieces
  {
    if |pieces| == 1 {
      SplitWhole(pieces[0], c);
    } else {
      SplitJoin(pieces[1..], c);
      SplitConcat(pieces[0], Join(pieces[1..], c), c);
    }
  }

  /** The topic is written as something, without separator characters. */
  predicate PlainTopic(t: Topic) {
    var text := TopicText(t);
    text != "" && Count(text, ':') == 0 && Count(text, '-') == 0
  }

  lemma {:induction false} PlainTexts(topics: seq<Topic>)
    requires forall i :: 0 <= i < |topics| ==> PlainTopic(topics[i])
    ensures |TopicTexts(topics)| == |topics|
    ensures forall i :: 0 <= i < |topics| ==>
              var text := TopicTexts(topics)[i]; text != "" && Count(text, ':') == 0 && Count(text, '-') == 0
    decreases topics
  {
    if topics != [] {
      PlainTexts(topics[1..]);
    }
  }

  /** The key of a filter with a plain address and at least one plain topic is read back as itself. */
  lemma PlainFilterRoundTrips(filter: EventFilter)
    requires filter.address.Some? ==> Count(filter.address.value, ':') == 0
    requires filter.topics.Some? && filter.topics.value != []
    requires forall i :: 0 <= i < |filter.topics.value| ==> PlainTopic(filter.topics.value[i])
    ensures RoundTrips(FilterToKey(filter))
  {
    var address := if filter.address.Some? then filter.address.value else "";
    var texts := TopicTexts(filter.topics.value);
    var topics := Join(texts, '-');
    PlainTexts(filter.topics.value);
    SplitJoin(texts, '-');
    JoinCount(texts, '-', ':');
    SplitConcat(address, topics, ':');
    SplitWhole(topics, ':');
    assert address + ":" + topics == FilterToKey(filter);
    SplitCounts(FilterToKey(filter), ':');
    KeyRoundTripsIff(FilterToKey(filter));
  }

  /** No alternative has a semicolon in it, and neither has a single topic. */
  predicate NoSemicolon(t: Topic) {
    match t
    case Null => true
    case One(topic) => Count(topic, ';') == 0
    case Many(topics) => forall i :: 0 <= i < |topics| ==> Count(topics[i], ';') == 0
  }

  /** A missing topic comes back as the character it is written as, and a single alternative as a plain topic. */
  function ReadTopic(t: Topic): Topic {
    match t
    case Null => One("\0")
    case One(topic) => if topic == "" then One("\0") else t
    case Many(topics) => if |topics| == 1 then One(topics[0]) else t
  }

  lemma TopicReadsBack(t: Topic)
    requires PlainTopic(t) && NoSemicolon(t)
    ensures ParseTopic(TopicText(t)) == ReadTopic(t)
  {
    assert "\0"[1..] == [];
    SplitWhole("\0", ';');
    match t
    case Null =>
    case One(topic) => SplitWhole(topic, ';');
    case Many(topics) =>
      if topics != [] {
        SplitJoin(topics, ';');
      }
  }

  lemma {:induction false} TopicsReadBack(topics: seq<Topic>)
    requires forall i :: 0 <= i < |topics| ==> PlainTopic(topics[i]) && NoSemicolon(topics[i])
    ensures ParseTopics(TopicTexts(topics)) == seq(|topics|, i requires 0 <= i < |topics| => ReadTopic(topics[i]))
    decreases topics
  {
    hide PlainTopic, NoSemicolon, ParseTopic, TopicText, ReadTopic;
    if topics != [] {
      TopicReadsBack(topics[0]);
      TopicsReadBack(topics[1..]);
      var texts := [TopicText(topics[0])] + TopicTexts(topics[1..]);
      assert texts[1..] == TopicTexts(topics[1..]);
    }
  }

  /** The key of such a filter is read back as the filter itself, topic by topic, without its first block. */
  lemma FilterReadsBack(filter: EventFilter)
    requires filter.address.Some? ==> Count(filter.address.value, ':') == 0
    requires filter.topics.Some? && filter.topics.value != []
    requires forall i :: 0 <= i < |filter.topics.value| ==>
               PlainTopic(filter.topics.value[i]) && NoSemicolon(filter.topics.value[i])
    ensures var topics := filter.topics.value;
      KeyToFilter(FilterToKey(filter))
      == Some(EventFilter(if filter.address == Some("") then None else filter.address,
                          Some(seq(|topics|, i requires 0 <= i < |topics| => ReadTopic(topics[i]))), None))
  {
    var address := if filter.address.Some? then filter.address.value else "";
    var texts := TopicTexts(filter.topics.value);
    var topics := Join(texts, '-');
    PlainTexts(filter.topics.value);
    SplitJoin(texts, '-');
    JoinCount(texts, '-', ':');
    SplitConcat(address, topics, ':');
    SplitWhole(topics, ':');
    assert address + ":" + topics == FilterToKey(filter);
    TopicsReadBack(filter.topics.value);
    hide ParseTopics, TopicTexts, Join, FilterToKey, ReadTopic, PlainTopic, NoSemicolon;
  }

  /** What a key looks like. */
  lemma KeyExample()
    ensures FilterToKey(EventFilter(Some("0xa"), Some([One("t"), Null, Many(["u", "v"])]), Some(7))) == "0xa:t-\0-u;v"
  {
    var topics := [One("t"), Null, Many(["u", "v"])];
    assert topics[1..] == [Null, Many(["u", "v"])] && topics[1..][1..] == [Many(["u", "v"])];
    assert ["u", "v"][1..] == ["v"];
    assert TopicText(Many(["u", "v"])) == "u;v";
    var texts := ["t", "\0", "u;v"];
    assert TopicTexts(topics) == texts;
    assert texts[1..] == ["\0", "u;v"] && texts[1..][1..] == ["u;v"];
  }

  /** The key of a filter without topics never is. */
  lemma TopiclessFilterDoesNotRoundTrip(filter: EventFilter)
    requires filter.topics == None || filter.topics == Some([])
    ensures !RoundTrips(FilterToKey(filter))
  {
    var address := if filter.address.Some? then filter.address.value else "";
    var key := FilterToKey(filter);
    assert key == address + ":";
    if OneColon(key) {
      SplitCounts(key, ':');
      CountConcat(address, ":", ':');
      assert ":"[1..] == [];
      SplitConcat(address, "", ':');
      assert address + ":" + "" == key;
      assert Split(key, ':')[1] == "";
      assert Split("", '-')[0] == "";
    }
    KeyRoundTripsIff(key);
  }
}

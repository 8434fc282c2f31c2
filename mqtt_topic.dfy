/**
 * The MQTT topic helper of the ProDino MKR Zero boards. Topic names are
 * levels separated by '/', the topic level separator of section 4.7.1.1 of
 * MQTT 3.1.1. The helper builds topic names in character buffers (the main
 * topic "base/device", the is-ready topic "base/device/isready", and topics
 * joined from levels) and splits them again, one level per call.
 *
 * A C string argument is a `string` without NUL; a pointer that may be null
 * is an `Option` (or a nullable array, for the buffer getNextTopic fills).
 */
module MqttTopic {
  import opened Common

  /** TOPIC_SEPARATOR. */
  const TopicSeparator: char := '/'
  /** MAIN_TOPIC_MAXLEN: the size of the main-topic and is-ready-topic buffers. */
  const MainTopicMaxLen := 64
  /** ISREADY_TOPIC. */
  const IsReadyTopic: string := "isready"
  /** SET_TOPIC. */
  const SetTopic: string := "/set"

  /** A C string: it holds no NUL. */
  predicate Plain(s: string)
  {
    Nul !in s
  }

  /** A topic level: not empty, and without separator or NUL. */
  predicate IsLevel(s: string)
  {
    s != [] && TopicSeparator !in s && Nul !in s
  }

  // ---------------------------------------------------------------- building

  /** What appendTopic leaves: `next` alone after an empty topic, otherwise the two joined by a separator. */
  function Appended(topic: string, next: string): string
  {
    if topic == [] then next else topic + [TopicSeparator] + next
  }

  /** What buildTopic leaves: each part appended in turn to the empty string. */
  function Built(parts: seq<string>): string
  {
    if parts == [] then [] else Appended(Built(parts[..|parts| - 1]), parts[|parts| - 1])
  }

  /** Levels joined by separators, the way a topic name is written. */
  function Join(levels: seq<string>): string
  {
    if |levels| == 0 then []
    else if |levels| == 1 then levels[0]
    else levels[0] + [TopicSeparator] + Join(levels[1..])
  }

  /** A joined name ends with its last level, after a separator when there is more than one level. */
  lemma {:induction false} JoinSnoc(levels: seq<string>, last: string)
    requires levels != []
    ensures Join(levels + [last]) == Join(levels) + [TopicSeparator] + last
    decreases |levels|
  {
    if |levels| > 1 {
      assert (levels + [last])[1..] == levels[1..] + [last];
      JoinSnoc(levels[1..], last);
    } else {
      assert (levels + [last])[1..] == [last];
    }
  }

  /** Building from non-empty parts joins them with separators. */
  lemma {:induction false} BuiltIsJoin(parts: seq<string>)
    requires forall i :: 0 <= i < |parts| ==> parts[i] != []
    ensures Built(parts) == Join(parts)
    decreases |parts|
  {
    if |parts| > 1 {
      var init := parts[..|parts| - 1];
      BuiltIsJoin(init);
      JoinSnoc(init, parts[|parts| - 1]);
      assert init + [parts[|parts| - 1]] == parts;
    }
  }

  /** A C string is built from C strings, and it only grows as parts are appended. */
  lemma {:induction false} BuiltGrows(parts: seq<string>, i: nat)
    requires i <= |parts|
    ensures |Built(parts[..i])| <= |Built(parts)|
    ensures (forall j :: 0 <= j < |parts| ==> Plain(parts[j])) ==> Plain(Built(parts))
    decreases |parts|
  {
    if parts != [] {
      var init := parts[..|parts| - 1];
      if i < |parts| {
        assert parts[..i] == init[..i];
        BuiltGrows(init, i);
      } else {
        assert parts[..i] == parts;
      }
      BuiltGrows(init, 0);
      if forall j :: 0 <= j < |parts| ==> Plain(parts[j]) {
        assert forall j :: 0 <= j < |init| ==> init[j] == parts[j];
      }
    }
  }

  /**
   * `addCharToStr`: `chr` is written over the NUL of the C string in `str`
   * and a new NUL after it, so the string grows by that one character.
   */
  method AddCharToStr(str: array<char>, chr: char)
    requires Nul in str[..] && |CStr(str[..])| + 1 < str.Length
    modifies str
    ensures var len := |CStr(old(str[..]))|;
            str[..] == old(str[..])[len := chr][len + 1 := Nul]
    ensures chr != Nul ==> CStr(str[..]) == old(CStr(str[..])) + [chr]
  {
    var len := StrLen(str);
    ghost var head := str[..len];
    str[len] := chr;
    len := len + 1;
    str[len] := Nul;
    if chr != Nul {
      assert str[..len] == head + [chr];
      CStrOfTerminated(str[..], head + [chr]);
    }
  }

  /** `addTopicSeparator`: a separator is appended to the C string in `str`. */
  method AddTopicSeparator(str: array<char>)
    requires Nul in str[..] && |CStr(str[..])| + 1 < str.Length
    modifies str
    ensures CStr(str[..]) == old(CStr(str[..])) + [TopicSeparator]
  {
    AddCharToStr(str, TopicSeparator);
  }

  /** `appendTopic`: `next` is appended as one more level of the topic in `topic`. */
  method AppendTopic(topic: array<char>, next: string)
    requires Nul in topic[..] && Plain(next)
    requires |Appended(CStr(topic[..]), next)| < topic.Length
    modifies topic
    ensures CStr(topic[..]) == Appended(old(CStr(topic[..])), next)
  {
    if topic[0] == Nul {
      StrCpy(topic, next);
    } else {
      AddTopicSeparator(topic);
      StrCat(topic, next);
    }
  }

  /** `buildTopic`: the buffer is emptied and each part appended as a level. */
  method BuildTopic(str: array<char>, parts: seq<string>)
    requires str.Length > 0 && |Built(parts)| < str.Length
    requires forall i :: 0 <= i < |parts| ==> Plain(parts[i])
    modifies str
    ensures CStr(str[..]) == Built(parts)
  {
    str[0] := Nul;
    assert CStr(str[..]) == [];
    for i := 0 to |parts|
      invariant CStr(str[..]) == Built(parts[..i])
      invariant Nul in str[..]
    {
      BuiltGrows(parts, i + 1);
      assert parts[..i + 1][..i] == parts[..i];
      AppendTopic(str, parts[i]);
    }
    assert parts[..|parts|] == parts;
  }

  // ---------------------------------------------------------------- splitting

  /** The number of characters other than the separator from `from` on. */
  function RunLength(s: string, from: nat): (n: nat)
    requires from <= |s|
    ensures from + n <= |s|
    ensures forall i :: from <= i < from + n ==> s[i] != TopicSeparator
    ensures from + n == |s| || s[from + n] == TopicSeparator
    decreases |s| - from
  {
    if from == |s| || s[from] == TopicSeparator then 0 else 1 + RunLength(s, from + 1)
  }

  /**
   * Where getNextTopic starts to scan `topics`: just after the main topic
   * and its separator when the main topic is skipped, otherwise after one
   * leading separator. None when it gives up before scanning.
   */
  function ScanStart(topics: string, mainTopic: string, skipMainTopic: bool): (r: Option<nat>)
    ensures r.Some? ==> r.value <= |topics|
  {
    if |topics| == 0 then None
    else if skipMainTopic then
      if |topics| <= |mainTopic| || !StartsWith(topics, mainTopic) || topics[|mainTopic|] != TopicSeparator then None
      else Some(|mainTopic| + 1)
    else if topics[0] == TopicSeparator then
      if |topics| == 1 then None else Some(1)
    else Some(0)
  }

  /** A level of a topic name: where it starts and how long it is. */
  datatype Level = Level(start: nat, len: nat)

  /** The level getNextTopic returns: the run from the scan start up to a separator or the end, if not empty. */
  function NextLevel(topics: string, mainTopic: string, skipMainTopic: bool): (r: Option<Level>)
    ensures r.Some? ==> r.value.len > 0 && r.value.start + r.value.len <= |topics|
  {
    match ScanStart(topics, mainTopic, skipMainTopic)
    case None => None
    case Some(start) =>
      var n := RunLength(topics, start);
      if n == 0 then None else Some(Level(start, n))
  }

  /**
   * Without skipping: no level in "", in "/" or when the first level is
   * empty; otherwise the level starts after one leading separator, if any,
   * holds no separator and ends at a separator or at the end.
   */
  lemma NextLevelIsFirstLevel(topics: string, mainTopic: string)
    ensures var r := NextLevel(topics, mainTopic, false);
            var s := if topics != [] && topics[0] == TopicSeparator then 1 else 0;
            && (r.None? <==> topics == [] || topics == [TopicSeparator] || (s < |topics| && topics[s] == TopicSeparator))
            && (r.Some? ==> (r.value.start == s
                             && TopicSeparator !in topics[s..s + r.value.len]
                             && (s + r.value.len == |topics| || topics[s + r.value.len] == TopicSeparator)))
  {
    var r := NextLevel(topics, mainTopic, false);
    if r.Some? {
      var s := r.value.start;
      var level := topics[s..s + r.value.len];
      assert forall i :: 0 <= i < |level| ==> level[i] != TopicSeparator;
    }
  }

  /**
   * Skipping the main topic: a level is found only in a name strictly
   * longer than the main topic that starts with it and has a separator
   * right after it; the level starts after that separator.
   */
  lemma SkipNeedsMainTopic(topics: string, mainTopic: string)
    requires NextLevel(topics, mainTopic, true).Some?
    ensures |topics| > |mainTopic| && StartsWith(topics, mainTopic) && topics[|mainTopic|] == TopicSeparator
    ensures NextLevel(topics, mainTopic, true).value.start == |mainTopic| + 1
  {
  }

  /** The levels that repeated getNextTopic calls return, each one starting where the last one ended. */
  function Levels(topics: string): seq<string>
    decreases |topics|
  {
    match NextLevel(topics, [], false)
    case None => []
    case Some(lv) => [topics[lv.start..lv.start + lv.len]] + Levels(topics[lv.start + lv.len..])
  }

  /** The first level of a joined name is its first part, and the rest follows a separator. */
  lemma FirstLevelOfJoin(levels: seq<string>)
    requires |levels| > 0 && forall i :: 0 <= i < |levels| ==> IsLevel(levels[i])
    ensures var t := Join(levels);
            && NextLevel(t, [], false) == Some(Level(0, |levels[0]|))
            && t[..|levels[0]|] == levels[0]
            && t[|levels[0]|..] == if |levels| == 1 then [] else [TopicSeparator] + Join(levels[1..])
  {
    var t := Join(levels);
    var l := levels[0];
    JoinSplit(levels);
    assert IsLevel(l);
    RunOverLevel(t, l, 0);
    assert ScanStart(t, [], false) == Some(0) by {
      assert t[0] == l[0] && l[0] in l;
    }
  }

  /** A joined name is its first level, then a separator and the rest when there is more than one. */
  lemma JoinSplit(levels: seq<string>)
    requires |levels| > 0
    ensures var t := Join(levels);
            && |levels[0]| <= |t| && t[..|levels[0]|] == levels[0]
            && t[|levels[0]|..] == if |levels| == 1 then [] else [TopicSeparator] + Join(levels[1..])
  {
    var t := Join(levels);
    if |levels| > 1 {
      assert t == levels[0] + ([TopicSeparator] + Join(levels[1..]));
    }
  }

  /** A level followed by the end of the name or by a separator is one run, from each of its positions. */
  lemma {:induction false} RunOverLevel(t: string, l: string, j: nat)
    requires IsLevel(l) && |l| <= |t| && t[..|l|] == l && j <= |l|
    requires |l| == |t| || t[|l|] == TopicSeparator
    ensures RunLength(t, j) == |l| - j
    decreases |l| - j
  {
    if j < |l| {
      assert t[j] == l[j] && l[j] in l;
      RunOverLevel(t, l, j + 1);
    }
  }

  /** Splitting a joined name with repeated getNextTopic calls gives back its levels, in order. */
  lemma {:induction false} LevelsOfJoin(levels: seq<string>)
    requires forall i :: 0 <= i < |levels| ==> IsLevel(levels[i])
    ensures Levels(Join(levels)) == levels
    decreases |levels|
  {
    if |levels| > 0 {
      var rest := levels[1..];
      LevelsOfRest(levels);
      LevelsOfJoin(rest);
      JoinStep(levels);
    }
  }

  /** The levels after the first are levels too. */
  lemma LevelsOfRest(levels: seq<string>)
    requires |levels| > 0 && forall i :: 0 <= i < |levels| ==> IsLevel(levels[i])
    ensures forall i :: 0 <= i < |levels[1..]| ==> IsLevel(levels[1..][i])
  {
    forall i | 0 <= i < |levels[1..]|
      ensures IsLevel(levels[1..][i])
    {
      assert levels[1..][i] == levels[i + 1];
    }
  }

  /** Splitting a joined name gives its first level, then what splitting the rest gives. */
  lemma JoinStep(levels: seq<string>)
    requires |levels| > 0 && forall i :: 0 <= i < |levels| ==> IsLevel(levels[i])
    requires Levels(Join(levels[1..])) == levels[1..]
    ensures Levels(Join(levels)) == levels
  {
    var t := Join(levels);
    var n := |levels[0]|;
    var rest := levels[1..];
    FirstLevelOfJoin(levels);
    LevelsStep(t, Level(0, n));
    assert t[0..n] == levels[0];
    if |levels| > 1 {
      var tail := Join(rest);
      LevelsOfRest(levels);
      FirstLevelOfJoin(rest);
      LevelsAfterSeparator(tail, |rest[0]|);
      assert Levels(t[n..]) == rest;
    } else {
      assert t[n..] == [];
    }
    ConsRest(levels);
  }

  /** A non-empty sequence is its first element followed by the rest. */
  lemma ConsRest<T>(s: seq<T>)
    requires |s| > 0
    ensures [s[0]] + s[1..] == s
  {
  }

  /** Splitting a name after one more leading separator gives the same levels. */
  lemma LevelsAfterSeparator(tail: string, n: nat)
    requires NextLevel(tail, [], false) == Some(Level(0, n))
    ensures Levels([TopicSeparator] + tail) == Levels(tail)
  {
    var rest := [TopicSeparator] + tail;
    NextLevelAfterSeparator(tail, n);
    LevelsStep(rest, Level(1, n));
    LevelsStep(tail, Level(0, n));
    assert rest[1..] == tail;
    assert rest[1..1 + n] == rest[1..][..n];
    assert rest[1 + n..] == rest[1..][n..];
  }

  /** A name whose first level starts at its beginning has that level after one more leading separator. */
  lemma NextLevelAfterSeparator(tail: string, n: nat)
    requires NextLevel(tail, [], false) == Some(Level(0, n))
    ensures NextLevel([TopicSeparator] + tail, [], false) == Some(Level(1, n))
  {
    var rest := [TopicSeparator] + tail;
    RunFrom(rest, 1, tail, 0);
    assert ScanStart(rest, [], false) == Some(1);
  }

  /** One getNextTopic call splits the first level off a name, and the calls go on after it. */
  lemma LevelsStep(t: string, lv: Level)
    requires NextLevel(t, [], false) == Some(lv)
    ensures Levels(t) == [t[lv.start..lv.start + lv.len]] + Levels(t[lv.start + lv.len..])
  {
  }

  /** What buildTopic builds from levels, repeated getNextTopic calls split into the same levels. */
  lemma BuildThenSplit(levels: seq<string>)
    requires forall i :: 0 <= i < |levels| ==> IsLevel(levels[i])
    ensures Levels(Built(levels)) == levels
  {
    BuiltIsJoin(levels);
    LevelsOfJoin(levels);
  }

  /**
   * A topic built after the main topic, as buildTopicWithMT builds it, has
   * its first level after the main topic found when the main topic is skipped.
   */
  lemma SkipFindsFirstLevel(mainTopic: string, levels: seq<string>)
    requires mainTopic != [] && |levels| > 0 && forall i :: 0 <= i < |levels| ==> IsLevel(levels[i])
    ensures var t := Built([mainTopic] + levels);
            && NextLevel(t, mainTopic, true) == Some(Level(|mainTopic| + 1, |levels[0]|))
            && t[|mainTopic| + 1..|mainTopic| + 1 + |levels[0]|] == levels[0]
  {
    assert forall i :: 0 <= i < |levels| ==> levels[i] != [] by {
      forall i | 0 <= i < |levels| ensures levels[i] != [] {
        assert IsLevel(levels[i]);
      }
    }
    BuiltAfterMain(mainTopic, levels);
    FirstLevelOfJoin(levels);
    SkipToTail(mainTopic, Join(levels), |levels[0]|);
  }

  /** Skipping the main topic in the main topic, a separator and a tail finds the tail's first level. */
  lemma SkipToTail(mainTopic: string, tail: string, n: nat)
    requires NextLevel(tail, [], false) == Some(Level(0, n))
    ensures var t := mainTopic + [TopicSeparator] + tail;
            var k := |mainTopic| + 1;
            && NextLevel(t, mainTopic, true) == Some(Level(k, n))
            && t[k..k + n] == tail[..n]
  {
    var t := mainTopic + [TopicSeparator] + tail;
    var k := |mainTopic| + 1;
    AfterMainParts(mainTopic, tail);
    RunFrom(t, k, tail, 0);
    assert ScanStart(t, mainTopic, true) == Some(k);
    assert t[k..k + n] == t[k..][..n];
  }

  /** The main topic, a separator and a tail: the name starts with the main topic and the tail follows the separator. */
  lemma AfterMainParts(mainTopic: string, tail: string)
    ensures var t := mainTopic + [TopicSeparator] + tail;
            && |t| > |mainTopic| && StartsWith(t, mainTopic) && t[|mainTopic|] == TopicSeparator
            && t[|mainTopic| + 1..] == tail
  {
    var t := mainTopic + [TopicSeparator] + tail;
    assert t[..|mainTopic|] == mainTopic;
  }

  /** A run from `k + j` is the run from `j` of the name's suffix from `k`. */
  lemma {:induction false} RunFrom(t: string, k: nat, tail: string, j: nat)
    requires k <= |t| && t[k..] == tail && j <= |tail|
    ensures RunLength(t, k + j) == RunLength(tail, j)
    decreases |tail| - j
  {
    if j < |tail| {
      assert t[k + j] == tail[j];
      RunFrom(t, k, tail, j + 1);
    }
  }

  /** Building after a non-empty main topic puts the main topic, a separator and the joined levels. */
  lemma {:induction false} BuiltAfterMain(mainTopic: string, levels: seq<string>)
    requires mainTopic != [] && |levels| > 0 && forall i :: 0 <= i < |levels| ==> levels[i] != []
    ensures Built([mainTopic] + levels) == mainTopic + [TopicSeparator] + Join(levels)
  {
    var parts := [mainTopic] + levels;
    BuiltIsJoin(parts);
    assert parts[1..] == levels;
  }

  // ---------------------------------------------------------------- queries

  /** `isTopicSet`: the topic ends with "/set". */
  function IsTopicSet(topics: string): bool
  {
    EndsWith(topics, SetTopic)
  }

  /** A topic is a set topic exactly when it is some name followed by "/set". */
  lemma IsTopicSetMeans(topics: string)
    ensures IsTopicSet(topics) <==> exists name :: topics == name + SetTopic
  {
    if IsTopicSet(topics) {
      var name := topics[..|topics| - |SetTopic|];
      assert topics == name + SetTopic;
    }
    if exists name :: topics == name + SetTopic {
      var name :| topics == name + SetTopic;
      assert topics[|topics| - |SetTopic|..] == SetTopic;
    }
  }

  /** `isOnlyThisTopic`: neither topic is null and they are the same string. */
  function IsOnlyThisTopic(topic1: Option<string>, topic2: Option<string>): (r: bool)
    ensures r <==> topic1.Some? && topic1 == topic2
  {
    if topic1.None? || topic2.None? then false else topic1.value == topic2.value
  }

  // ---------------------------------------------------------------- the helper

  /** The strcpy, separator and strcat with which init fills a topic buffer. */
  method TwoLevels(dst: array<char>, first: string, second: string)
    requires Plain(first) && Plain(second) && |first| + 1 + |second| < dst.Length
    modifies dst
    ensures CStr(dst[..]) == first + [TopicSeparator] + second
    ensures Nul in dst[..]
  {
    StrCpy(dst, first);
    AddCharToStr(dst, TopicSeparator);
    StrCat(dst, second);
    assert dst[..][|CStr(dst[..])|] == Nul;
  }

  /** The scan loop of getNextTopic: it counts the characters up to a separator or the end. */
  method ScanRun(t: string, start: nat) returns (length: nat)
    requires start <= |t|
    ensures length == RunLength(t, start)
  {
    var findPos := start;
    length := 0;
    while findPos < |t| && t[findPos] != TopicSeparator
      invariant start <= findPos <= |t| && length == findPos - start
      invariant RunLength(t, start) == length + RunLength(t, findPos)
      decreases |t| - findPos
    {
      findPos := findPos + 1;
      length := length + 1;
    }
  }

  /** The strNCopy of getNextTopic: the level and a terminating NUL over the front of the buffer. */
  method CopyLevel(dst: array<char>, t: string, start: nat, length: nat)
    requires Plain(t) && start + length <= |t| && length < dst.Length
    modifies dst
    ensures dst[..] == StrNCopy(old(dst[..]), t[start..], length)
    ensures CStr(dst[..]) == t[start..start + length]
  {
    ghost var buf := dst[..];
    forall i | 0 <= i < dst.Length {
      dst[i] := if i < length then t[start + i] else if i == length then Nul else dst[i];
    }
    assert dst[..] == StrNCopy(buf, t[start..], length);
    CStrOfTerminated(dst[..], t[start..start + length]);
  }

  /** A copy of at least one character overwrites the NUL put first into the buffer. */
  lemma CopyOverCleared(buf: seq<char>, cleared: seq<char>, src: string, length: nat)
    requires 0 < length <= |src| && length < |buf| && cleared == buf[0 := Nul]
    ensures StrNCopy(cleared, src, length) == StrNCopy(buf, src, length)
  {
    assert cleared[length + 1..] == buf[length + 1..];
  }

  /** The helper's globals: the two topics `init` builds, and the lengths it records. */
  class TopicHelper {
    /** `_baseTopic`. */
    var baseTopic: string
    /** `_deviceTopic`. */
    var deviceTopic: string
    /** `_mainTopic`. */
    const mainTopic: array<char>
    /** `_mainTopicLen`. */
    var mainTopicLen: nat
    /** `_isReadyTopic`. */
    const isReadyTopic: array<char>
    /** `_setTopicLen`. */
    var setTopicLen: nat

    ghost predicate Valid()
      reads this, mainTopic
    {
      mainTopic.Length == MainTopicMaxLen && isReadyTopic.Length == MainTopicMaxLen && mainTopic != isReadyTopic
      && Nul in mainTopic[..] && mainTopicLen == |CStr(mainTopic[..])|
    }

    /** The main topic, as the C string in its buffer. */
    ghost function MainTopic(): string
      reads this, mainTopic
    {
      CStr(mainTopic[..])
    }

    /** The helper before `init`: its buffers are zero, like any global. */
    constructor()
      ensures Valid() && MainTopic() == [] && fresh(mainTopic) && fresh(isReadyTopic)
    {
      mainTopic := new char[MainTopicMaxLen](_ => Nul);
      isReadyTopic := new char[MainTopicMaxLen](_ => Nul);
      baseTopic, deviceTopic := [], [];
      mainTopicLen, setTopicLen := 0, 0;
      new;
      assert mainTopic[..][0] == Nul;
    }

    /**
     * `init`: the main topic is the base topic, a separator and the device
     * topic; the is-ready topic is the main topic followed by "/isready".
     */
    method Init(base: string, device: string)
      requires Valid() && Plain(base) && Plain(device)
      requires |base| + 1 + |device| + 1 + |IsReadyTopic| < MainTopicMaxLen
      modifies this, mainTopic, isReadyTopic
      ensures Valid() && baseTopic == base && deviceTopic == device
      ensures MainTopic() == base + [TopicSeparator] + device
      ensures CStr(isReadyTopic[..]) == MainTopic() + [TopicSeparator] + IsReadyTopic
      ensures setTopicLen == |SetTopic|
    {
      baseTopic, deviceTopic := base, device;
      TwoLevels(mainTopic, base, device);
      mainTopicLen := StrLen(mainTopic);
      var main := mainTopic[..mainTopicLen];
      TwoLevels(isReadyTopic, main, IsReadyTopic);
      setTopicLen := |SetTopic|;
    }

    /** `buildTopicWithMT`: the buffer is emptied, then the main topic and each part are appended as levels. */
    method BuildTopicWithMainTopic(str: array<char>, parts: seq<string>)
      requires Valid() && str != mainTopic && str.Length > 0
      requires forall i :: 0 <= i < |parts| ==> Plain(parts[i])
      requires |Built([MainTopic()] + parts)| < str.Length
      modifies str
      ensures CStr(str[..]) == Built([MainTopic()] + parts)
    {
      var main := mainTopic[..mainTopicLen];
      var all := [main] + parts;
      assert forall i :: 0 <= i < |all| ==> Plain(all[i]);
      BuildTopic(str, all);
    }

    /**
     * Where getNextTopic starts scanning: past the main topic and its
     * separator when skipping it, else past one leading separator, if any.
     */
    method FindStart(t: string, skipMainTopic: bool) returns (found: bool, start: nat)
      requires Valid() && |t| > 0
      ensures found <==> ScanStart(t, MainTopic(), skipMainTopic).Some?
      ensures found ==> start == ScanStart(t, MainTopic(), skipMainTopic).value
    {
      assert mainTopic[..mainTopicLen] == MainTopic();
      if skipMainTopic {
        if |t| <= mainTopicLen || !StartsWith(t, mainTopic[..mainTopicLen]) || t[mainTopicLen] != TopicSeparator {
          return false, 0;
        }
        return true, mainTopicLen + 1;
      }
      if t[0] == TopicSeparator {
        if |t| == 1 {
          return false, 0;
        }
        return true, 1;
      }
      return true, 0;
    }

    /**
     * `getNextTopic`: the next level of `topics` is copied into `nextTopic`
     * and `otherTopics` is set just after it. Null arguments and an empty
     * name give false and leave the buffer alone; otherwise the buffer is
     * emptied first, and false means that NextLevel finds no level.
     */
    method GetNextTopic(topics: Option<string>, nextTopic: array?<char>, skipMainTopic: bool)
      returns (ok: bool, otherTopics: nat)
      requires Valid() && nextTopic != mainTopic
      requires topics.Some? ==> Plain(topics.value)
      requires topics.Some? && topics.value != [] && nextTopic != null ==>
                 nextTopic.Length > 0
                 && var lv := NextLevel(topics.value, MainTopic(), skipMainTopic);
                    lv.Some? ==> lv.value.len < nextTopic.Length
      modifies nextTopic
      ensures topics.None? || nextTopic == null || topics.value == [] ==>
                !ok && (nextTopic != null ==> nextTopic[..] == old(nextTopic[..]))
      ensures topics.Some? && nextTopic != null && topics.value != [] ==>
                var t := topics.value;
                var lv := NextLevel(t, MainTopic(), skipMainTopic);
                && (ok <==> lv.Some?)
                && (ok ==> (otherTopics == lv.value.start + lv.value.len
                            && nextTopic[..] == StrNCopy(old(nextTopic[..]), t[lv.value.start..], lv.value.len)
                            && CStr(nextTopic[..]) == t[lv.value.start..otherTopics]))
                && (!ok ==> nextTopic[..] == old(nextTopic[..])[0 := Nul])
    {
      if topics.None? || nextTopic == null {
        return false, 0;
      }
      var t := topics.value;
      if |t| == 0 {
        return false, 0;
      }
      nextTopic[0] := Nul;
      var found, start := FindStart(t, skipMainTopic);
      if !found {
        return false, 0;
      }
      var length := ScanRun(t, start);
      if length == 0 {
        return false, 0;
      }
      assert NextLevel(t, MainTopic(), skipMainTopic) == Some(Level(start, length));
      ghost var cleared := nextTopic[..];
      CopyLevel(nextTopic, t, start, length);
      CopyOverCleared(old(nextTopic[..]), cleared, t[start..], length);
      ok, otherTopics := true, start + length;
    }
  }
}

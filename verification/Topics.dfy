/** Topic names: the normal form, and matching under the three policies. */
module Topics {
  /** A name's leading slash, and its non-empty segments. */
  predicate Absolute(topic: string) {
    topic != "" && topic[0] == '/'
  }

  function Segments(topic: string): seq<string> {
    SegmentsAfter("", topic)
  }

  /** The segments still to come when `current` has been read of the present one. */
  function SegmentsAfter(current: string, rest: string): seq<string>
    decreases |rest|
  {
    if rest == "" then Closed(current)
    else if rest[0] == '/' then Closed(current) + SegmentsAfter("", rest[1..])
    else SegmentsAfter(current + [rest[0]], rest[1..])
  }

  function Closed(segment: string): seq<string> {
    if segment == "" then [] else [segment]
  }

  /** Every segment followed by a slash. */
  function Opened(segments: seq<string>): string {
    if segments == [] then "" else Opened(segments[..|segments| - 1]) + segments[|segments| - 1] + "/"
  }

  /** Segments separated by single slashes. */
  function Joined(segments: seq<string>): string {
    if segments == [] then "" else Opened(segments[..|segments| - 1]) + segments[|segments| - 1]
  }

  function Lead(absolute: bool): string {
    if absolute then "/" else ""
  }

  function Canonical(absolute: bool, segments: seq<string>): string {
    Lead(absolute) + Joined(segments)
  }

  function Normal(topic: string): string {
    Canonical(Absolute(topic), Segments(topic))
  }

  predicate IsSegment(s: string) {
    s != "" && '/' !in s
  }

  predicate AreSegments(segments: seq<string>) {
    forall s :: s in segments ==> IsSegment(s)
  }

  lemma {:induction false} SegmentsAreSegments(current: string, rest: string)
    requires '/' !in current
    ensures AreSegments(SegmentsAfter(current, rest))
    decreases |rest|
  {
    if rest == "" {
    } else if rest[0] == '/' {
      SegmentsAreSegments("", rest[1..]);
    } else {
      SegmentsAreSegments(current + [rest[0]], rest[1..]);
    }
  }

  /** `normalize_topic`. */
  method NormalizeTopic(topic: string) returns (result: string)
    ensures result == Normal(topic)
  {
    ghost var closed, current;
    result, closed, current := CollapseSlashes(topic);
    CollapsedTarget(Absolute(topic), closed, current);
    result := TrimSlashes(result, Canonical(Absolute(topic), closed + Closed(current)));
  }

  /** The copying loop: runs of slashes become one, and a relative name gains no leading slash. */
  method CollapseSlashes(topic: string) returns (result: string, ghost closed: seq<string>, ghost current: string)
    ensures result == Lead(Absolute(topic)) + Opened(closed) + current
    ensures Segments(topic) == closed + Closed(current)
    ensures AreSegments(closed) && '/' !in current
  {
    result, closed, current := "", [], "";
    if topic != "" && topic[0] == '/' {
      result := result + "/";
    }
    var slash := false;
    for i := 0 to |topic|
      invariant Segments(topic) == closed + SegmentsAfter(current, topic[i..])
      invariant result == Lead(Absolute(topic)) + Opened(closed) + current
      invariant AreSegments(closed) && '/' !in current
      invariant slash ==> current == ""
    {
      assert topic[i..][0] == topic[i] && topic[i..][1..] == topic[i + 1..];
      if topic[i] == '/' {
        ScannedEnd(Lead(Absolute(topic)), closed, current);
        SegmentEnds(Lead(Absolute(topic)), closed, current, SegmentsAfter("", topic[i + 1..]));
        if !slash && result != "" && result[|result| - 1] != '/' {
          result := result + "/";
        }
        closed, current := closed + Closed(current), "";
        slash := true;
      } else {
        assert result + [topic[i]] == Lead(Absolute(topic)) + Opened(closed) + (current + [topic[i]]);
        result := result + [topic[i]];
        current := current + [topic[i]];
        slash := false;
      }
    }
    assert topic[|topic|..] == "";
  }

  lemma {:induction false} CollapsedTarget(absolute: bool, closed: seq<string>, current: string)
    requires AreSegments(closed) && '/' !in current
    ensures var scanned := Lead(absolute) + Opened(closed) + current;
            var target := Canonical(absolute, closed + Closed(current));
            && (scanned == target || (scanned == target + "/" && target != "" && target[|target| - 1] != '/'))
            && (|target| > 1 ==> target[|target| - 1] != '/')
  {
    var lead, joined := Lead(absolute), Joined(closed + Closed(current));
    JoinedSnoc(closed, current);
    ClosedAreSegments(closed, current);
    CanonicalEnd(absolute, closed + Closed(current));
    if current != "" {
      assert lead + Opened(closed) + current == lead + joined;
    } else if closed != [] {
      assert lead + Opened(closed) + current == lead + (joined + "/") == lead + joined + "/";
      assert closed + Closed(current) == closed;
    } else {
      assert lead + Opened(closed) + current == lead + joined;
    }
  }

  lemma {:induction false} ClosedAreSegments(closed: seq<string>, current: string)
    requires AreSegments(closed) && '/' !in current
    ensures AreSegments(closed + Closed(current))
  {
  }

  /** Ending the open segment adds one slash if there was one, and nothing otherwise. */
  lemma {:induction false} SegmentEnds(lead: string, closed: seq<string>, current: string, rest: seq<string>)
    requires AreSegments(closed) && '/' !in current
    ensures AreSegments(closed + Closed(current))
    ensures closed + (Closed(current) + rest) == (closed + Closed(current)) + rest
    ensures lead + Opened(closed + Closed(current)) + ""
            == if current == "" then lead + Opened(closed) + current else lead + Opened(closed) + current + "/"
  {
    OneMoreSegment(closed, current);
    ClosedFirst(closed, Closed(current), rest);
    OpenedSnoc(closed, current);
    LeadFirst(lead, Opened(closed), current);
  }

  lemma {:induction false} OneMoreSegment(closed: seq<string>, current: string)
    requires AreSegments(closed) && '/' !in current
    ensures AreSegments(closed + Closed(current))
  {
  }

  lemma {:induction false} ClosedFirst(a: seq<string>, b: seq<string>, c: seq<string>)
    ensures a + (b + c) == (a + b) + c
  {
  }

  lemma {:induction false} LeadFirst(lead: string, front: string, current: string)
    ensures lead + (front + current + "/") == lead + front + current + "/"
    ensures lead + front + "" == lead + front
    ensures lead + (front + current + "/") + "" == lead + front + current + "/"
  {
  }

  /** The final loop: at most one slash too many, and never the root's own. */
  method TrimSlashes(scanned: string, ghost target: string) returns (result: string)
    requires scanned == target || (scanned == target + "/" && target != "")
    requires |target| > 1 ==> target[|target| - 1] != '/'
    requires scanned != target ==> target[|target| - 1] != '/'
    ensures result == target
  {
    result := scanned;
    while |result| > 1 && result[|result| - 1] == '/'
      invariant result == target || (result == target + "/" && target != "")
      decreases |result|
    {
      result := result[..|result| - 1];
    }
  }

  /** What has been scanned ends in a slash, or is empty, exactly when no segment is open. */
  lemma {:induction false} ScannedEnd(lead: string, closed: seq<string>, current: string)
    requires (lead == "" || lead == "/") && '/' !in current
    ensures var r := lead + Opened(closed) + current;
            (current == "") == (r == "" || r[|r| - 1] == '/')
  {
    OpenedEnd(closed);
    var r := lead + Opened(closed) + current;
    if current != "" {
      assert r[|r| - 1] == current[|current| - 1] && current[|current| - 1] in current;
    }
  }

  lemma {:induction false} OpenedEnd(segments: seq<string>)
    ensures segments != [] ==> Opened(segments) != "" && Opened(segments)[|Opened(segments)| - 1] == '/'
  {
  }

  lemma {:induction false} OpenedSnoc(segments: seq<string>, last: string)
    ensures Opened(segments + Closed(last)) == if last == "" then Opened(segments) else Opened(segments) + last + "/"
  {
    if last != "" {
      assert (segments + [last])[..|segments|] == segments;
    } else {
      assert segments + [] == segments;
    }
  }

  /** Either the last segment is still open, or it has been followed by exactly one slash. */
  lemma {:induction false} JoinedSnoc(segments: seq<string>, last: string)
    ensures last != "" ==> Joined(segments + Closed(last)) == Opened(segments) + last
    ensures last == "" && segments != [] ==> Opened(segments) == Joined(segments + Closed(last)) + "/"
    ensures last == "" && segments == [] ==> Opened(segments) == Joined(segments + Closed(last))
  {
    if last != "" {
      assert (segments + [last])[..|segments|] == segments;
    } else {
      assert segments + [] == segments;
    }
  }

  lemma {:induction false} CanonicalEnd(absolute: bool, segments: seq<string>)
    requires AreSegments(segments)
    ensures var c := Canonical(absolute, segments);
            && (segments != [] ==> c != "" && c[|c| - 1] != '/')
            && (segments == [] ==> |c| <= 1)
  {
    if segments != [] {
      var last := segments[|segments| - 1];
      assert last in segments;
      var j := Joined(segments);
      assert j[|j| - 1] == last[|last| - 1];
      assert last[|last| - 1] in last;
    }
  }

  // ----- the normal form is canonical -----

  lemma {:induction false} SegmentsConcat(current: string, a: string, b: string)
    requires '/' !in a
    ensures SegmentsAfter(current, a + b) == SegmentsAfter(current + a, b)
    decreases |a|
  {
    if a == "" {
      assert a + b == b && current + a == current;
    } else {
      assert a[0] in a;
      assert (a + b)[1..] == a[1..] + b;
      assert (current + [a[0]]) + a[1..] == current + a;
      SegmentsConcat(current + [a[0]], a[1..], b);
    }
  }

  lemma {:induction false} SegmentsOfOpened(segments: seq<string>, rest: string)
    requires AreSegments(segments)
    ensures SegmentsAfter("", Opened(segments) + rest) == segments + SegmentsAfter("", rest)
    decreases |segments|
  {
    if segments == [] {
      assert Opened(segments) + rest == rest;
    } else {
      var front, last := segments[..|segments| - 1], segments[|segments| - 1];
      assert last in segments && front + [last] == segments;
      assert Opened(segments) + rest == Opened(front) + (last + ("/" + rest));
      SegmentsOfOpened(front, last + ("/" + rest));
      SegmentsConcat("", last, "/" + rest);
      assert "" + last == last && ("/" + rest)[1..] == rest;
      assert front + ([last] + SegmentsAfter("", rest)) == segments + SegmentsAfter("", rest);
    }
  }

  lemma {:induction false} SegmentsOfJoined(segments: seq<string>)
    requires AreSegments(segments)
    ensures SegmentsAfter("", Joined(segments)) == segments
  {
    if segments != [] {
      var front, last := segments[..|segments| - 1], segments[|segments| - 1];
      assert last in segments;
      SegmentsOfOpened(front, last);
      SegmentsConcat("", last, "");
      assert last + "" == last && "" + last == last;
    }
  }

  lemma {:induction false} OpenedStart(segments: seq<string>)
    requires AreSegments(segments) && segments != [] && segments[0] != ""
    ensures Opened(segments) != "" && Opened(segments)[0] == segments[0][0]
    decreases |segments|
  {
    assert segments[0] in segments;
    if |segments| > 1 {
      OpenedStart(segments[..|segments| - 1]);
    }
  }

  /** A normal form shows the leading slash and the segments it was made from. */
  lemma {:induction false} CanonicalDetermines(absolute: bool, segments: seq<string>)
    requires AreSegments(segments)
    ensures Absolute(Canonical(absolute, segments)) == absolute
    ensures Segments(Canonical(absolute, segments)) == segments
  {
    SegmentsOfJoined(segments);
    if absolute {
      assert ("/" + Joined(segments))[1..] == Joined(segments);
    } else {
      assert Lead(absolute) + Joined(segments) == Joined(segments);
      if segments != [] {
        var front := segments[..|segments| - 1];
        assert segments[0] in segments && segments[0][0] in segments[0];
        if front != [] {
          OpenedStart(front);
        }
      }
    }
  }

  lemma {:induction false} NormalDetermines(topic: string)
    ensures Absolute(Normal(topic)) == Absolute(topic) && Segments(Normal(topic)) == Segments(topic)
  {
    SegmentsAreSegments("", topic);
    CanonicalDetermines(Absolute(topic), Segments(topic));
  }

  /** Normalising twice changes nothing more. */
  lemma {:induction false} NormalIsIdempotent(topic: string)
    ensures Normal(Normal(topic)) == Normal(topic)
  {
    NormalDetermines(topic);
  }

  /** Two names have the same normal form exactly when they agree on leading slash and segments. */
  lemma {:induction false} NormalIsCanonical(a: string, b: string)
    ensures Normal(a) == Normal(b) <==> Absolute(a) == Absolute(b) && Segments(a) == Segments(b)
  {
    NormalDetermines(a);
    NormalDetermines(b);
  }

  lemma {:induction false} OpenedSlashes(segments: seq<string>, k: nat)
    requires AreSegments(segments) && k + 1 < |Opened(segments)|
    ensures !(Opened(segments)[k] == '/' && Opened(segments)[k + 1] == '/')
    ensures segments != [] ==> Opened(segments)[0] != '/'
    decreases |segments|
  {
    var front, last := segments[..|segments| - 1], segments[|segments| - 1];
    assert last in segments && segments[0] in segments && segments[0][0] in segments[0];
    OpenedStart(segments);
    var n := |Opened(front)|;
    if k + 1 < n {
      OpenedSlashes(front, k);
    } else if k >= n {
      assert Opened(segments)[k] == (last + "/")[k - n];
      assert k - n < |last| && last[k - n] in last;
    } else {
      assert Opened(segments)[k + 1] == (last + "/")[0] == last[0];
      assert last[0] in last;
    }
  }

  /** No double slash, and a trailing one only in the root itself. */
  lemma {:induction false} NormalShape(topic: string, k: nat)
    requires k < |Normal(topic)|
    ensures k + 1 < |Normal(topic)| ==> !(Normal(topic)[k] == '/' && Normal(topic)[k + 1] == '/')
    ensures k + 1 == |Normal(topic)| && Normal(topic)[k] == '/' ==> Normal(topic) == "/"
  {
    var n, segments := Normal(topic), Segments(topic);
    SegmentsAreSegments("", topic);
    CanonicalEnd(Absolute(topic), segments);
    if k + 1 < |n| && segments != [] {
      var lead := Lead(Absolute(topic));
      assert Opened(segments) == Joined(segments) + "/";
      assert n + "/" == lead + Opened(segments);
      assert segments[0] in segments && segments[0][0] in segments[0];
      OpenedStart(segments);
      if k >= |lead| {
        assert n[k] == Opened(segments)[k - |lead|] && n[k + 1] == Opened(segments)[k + 1 - |lead|];
        OpenedSlashes(segments, k - |lead|);
      } else {
        assert n[k + 1] == Opened(segments)[0];
      }
    }
  }

  lemma {:induction false} JoinedCons(first: string, rest: seq<string>)
    requires rest != []
    ensures Joined([first] + rest) == first + "/" + Joined(rest)
  {
    var front, last := rest[..|rest| - 1], rest[|rest| - 1];
    OpenedCons(first, front);
    JoinedLast([first] + front, last);
    JoinedLast(front, last);
    Reassociate(first + "/", Opened(front), last);
    assert rest == front + [last] && [first] + rest == [first] + front + [last];
  }

  lemma {:induction false} JoinedLast(front: seq<string>, last: string)
    ensures Joined(front + [last]) == Opened(front) + last
  {
    assert (front + [last])[..|front|] == front;
  }

  lemma {:induction false} Reassociate(a: string, b: string, c: string)
    ensures (a + b) + c == a + (b + c)
  {
  }

  lemma {:induction false} OpenedCons(first: string, rest: seq<string>)
    ensures Opened([first] + rest) == first + "/" + Opened(rest)
    decreases |rest|
  {
    var all := [first] + rest;
    if rest == [] {
      assert all[..|all| - 1] == [];
    } else {
      assert all[..|all| - 1] == [first] + rest[..|rest| - 1];
      OpenedCons(first, rest[..|rest| - 1]);
    }
  }

  /** A string without a double or a trailing slash is its own segments, joined. */
  lemma {:induction false} PlainIsJoined(current: string, rest: string)
    requires '/' !in current && (current == "" && rest != "" ==> rest[0] != '/')
    requires rest != "" ==> rest[|rest| - 1] != '/'
    requires forall k :: 0 <= k < |rest| - 1 ==> !(rest[k] == '/' && rest[k + 1] == '/')
    ensures Joined(SegmentsAfter(current, rest)) == current + rest
    ensures current + rest != "" ==> SegmentsAfter(current, rest) != []
    decreases |rest|
  {
    if rest == "" {
      assert Joined([current]) == current by {
        assert [current][..0] == [];
      }
    } else if rest[0] == '/' {
      assert rest == "/" + rest[1..] && rest[1] != '/';
      PlainIsJoined("", rest[1..]);
      JoinedCons(current, SegmentsAfter("", rest[1..]));
      assert current + "/" + rest[1..] == current + rest;
    } else {
      assert current + [rest[0]] + rest[1..] == current + rest;
      PlainIsJoined(current + [rest[0]], rest[1..]);
    }
  }

  /** The normal form is the only name of its shape that has the topic's leading slash and segments. */
  lemma {:induction false} NormalIsUnique(topic: string, n: string)
    requires "/" <= n <==> "/" <= topic
    requires Segments(n) == Segments(topic)
    requires forall k :: 0 <= k < |n| - 1 ==> !(n[k] == '/' && n[k + 1] == '/')
    requires |n| > 1 ==> n[|n| - 1] != '/'
    ensures n == Normal(topic)
  {
    if "/" <= n {
      assert n[1..] != "" ==> n[1] != '/' && n[1..][|n| - 2] == n[|n| - 1];
      PlainIsJoined("", n[1..]);
      assert Segments(n) == [] + SegmentsAfter("", n[1..]) == SegmentsAfter("", n[1..]);
      assert n == "/" + n[1..] && "" + n[1..] == n[1..];
    } else {
      PlainIsJoined("", n);
      assert Lead(false) + Joined(Segments(n)) == Joined(Segments(n)) && "" + n == n;
    }
  }

  /** Slashes separate segments; what has none is a segment, unless it is empty. */
  lemma {:induction false} SegmentLaws(a: string, b: string, s: string)
    requires '/' !in s
    ensures Segments(a + "/" + b) == Segments(a) + Segments(b)
    ensures Segments(s) == if s == "" then [] else [s]
  {
    SegmentsSplit("", a, b);
    SegmentsConcat("", s, "");
    assert s + "" == s && "" + s == s;
  }

  // ----- matching -----

  datatype Policy = Strict | IgnoreLeadingSlash | ResolveNamespace
  datatype Match = Matched(same: bool) | NamespaceNotAbsolute

  /** The name a policy compares: leading slash and segments, with the namespace in front if it applies. */
  function Key(name: string, policy: Policy, space: string): (bool, seq<string>) {
    match policy
    case Strict => (Absolute(name), Segments(name))
    case IgnoreLeadingSlash => (false, Segments(name))
    case ResolveNamespace =>
      if Segments(name) != [] && !Absolute(name) then (true, Segments(space) + Segments(name))
      else (Absolute(name), Segments(name))
  }

  /** The string `topics_match` computes for one side. */
  method MatchKey(name: string, policy: Policy, space: string) returns (value: string)
    requires policy.ResolveNamespace? ==> Absolute(space) && space == Normal(space)
    ensures var (absolute, segments) := Key(name, policy, space); value == Canonical(absolute, segments)
  {
    value := NormalizeTopic(name);
    NormalDetermines(name);
    NormalIsEmpty(name);
    if policy.IgnoreLeadingSlash? {
      if value != "" && value[0] == '/' {
        value := value[1..];
      }
      assert value == Joined(Segments(name)) && Lead(false) + value == value;
    } else if policy.ResolveNamespace? && value != "" && value[0] != '/' {
      var before := value;
      value := NormalizeTopic(space + "/" + value);
      ResolvedSegments(space, before);
    }
  }

  lemma {:induction false} NormalIsEmpty(name: string)
    ensures Normal(name) == "" <==> !Absolute(name) && Segments(name) == []
  {
    SegmentsAreSegments("", name);
    if Segments(name) != [] {
      CanonicalEnd(Absolute(name), Segments(name));
    }
  }

  lemma {:induction false} SegmentsSplit(current: string, a: string, b: string)
    ensures SegmentsAfter(current, a + "/" + b) == SegmentsAfter(current, a) + SegmentsAfter("", b)
    decreases |a|
  {
    if a == "" {
      assert a + "/" + b == "/" + b && ("/" + b)[1..] == b;
    } else {
      assert (a + "/" + b)[1..] == a[1..] + "/" + b;
      if a[0] == '/' {
        SegmentsSplit("", a[1..], b);
        assert Closed(current) + (SegmentsAfter("", a[1..]) + SegmentsAfter("", b))
            == (Closed(current) + SegmentsAfter("", a[1..])) + SegmentsAfter("", b);
      } else {
        SegmentsSplit(current + [a[0]], a[1..], b);
      }
    }
  }

  /** Resolving a relative name puts the namespace's segments in front of its own. */
  lemma {:induction false} ResolvedSegments(space: string, name: string)
    requires Absolute(space)
    ensures Absolute(space + "/" + name) && Segments(space + "/" + name) == Segments(space) + Segments(name)
  {
    SegmentsSplit("", space, name);
  }

  /**
   When two names match, without keys: by leading slash and segments, by segments alone, or with the
   namespace in front of the one that is relative if the other is absolute.
   */
  predicate Agree(left: string, right: string, policy: Policy, space: string) {
    match policy
    case Strict => ("/" <= left <==> "/" <= right) && Segments(left) == Segments(right)
    case IgnoreLeadingSlash => Segments(left) == Segments(right)
    case ResolveNamespace =>
      if "/" <= left && !("/" <= right) then Segments(right) != [] && Segments(left) == Segments(space + "/" + right)
      else if "/" <= right && !("/" <= left) then
        Segments(left) != [] && Segments(right) == Segments(space + "/" + left)
      else Segments(left) == Segments(right)
  }

  /** Comparing keys decides just that. */
  lemma {:induction false} KeysAgree(left: string, right: string, policy: Policy, space: string)
    ensures Key(left, policy, space) == Key(right, policy, space) <==> Agree(left, right, policy, space)
  {
    SegmentsSplit("", space, left);
    SegmentsSplit("", space, right);
    if Segments(space) + Segments(left) == Segments(space) + Segments(right) {
      SameRest(Segments(space), Segments(left), Segments(right));
    }
  }

  lemma {:induction false} SameRest(a: seq<string>, b: seq<string>, c: seq<string>)
    requires a + b == a + c
    ensures b == c
  {
    assert b == (a + b)[|a|..] && c == (a + c)[|a|..];
  }

  /** `topics_match`: the policy's keys are compared, after the namespace has been checked. */
  method TopicsMatch(left: string, right: string, policy: Policy, topicNamespace: string) returns (r: Match)
    ensures r == if policy.ResolveNamespace? && !Absolute(topicNamespace) then NamespaceNotAbsolute
                 else Matched(Key(left, policy, topicNamespace) == Key(right, policy, topicNamespace))
    ensures r == if policy.ResolveNamespace? && !("/" <= topicNamespace) then NamespaceNotAbsolute
                 else Matched(Agree(left, right, policy, topicNamespace))
  {
    KeysAgree(left, right, policy, topicNamespace);
    var space := NormalizeTopic(topicNamespace);
    NormalDetermines(topicNamespace);
    NormalIsEmpty(topicNamespace);
    if policy.ResolveNamespace? && (space == "" || space[0] != '/') {
      return NamespaceNotAbsolute;
    }
    NormalIsIdempotent(topicNamespace);
    var a := MatchKey(left, policy, space);
    var b := MatchKey(right, policy, space);
    KeysAreSegments(left, policy, space);
    KeysAreSegments(right, policy, space);
    var (la, ls) := Key(left, policy, space);
    var (ra, rs) := Key(right, policy, space);
    CanonicalDetermines(la, ls);
    CanonicalDetermines(ra, rs);
    r := Matched(a == b);
  }

  lemma {:induction false} KeysAreSegments(name: string, policy: Policy, space: string)
    ensures AreSegments(Key(name, policy, space).1)
  {
    SegmentsAreSegments("", name);
    SegmentsAreSegments("", space);
  }
}

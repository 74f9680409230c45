/**
 * The Redis tool's sequential logic: the saved-session list (upsert keyed on host, port, db and
 * cluster mode; delete by the same key; 30-character display names), the scan of a
 * `CLUSTER NODES` reply for the `myself` node, the ordered classification of connection
 * errors, and the TTL column text.
 *
 * The session file is the `stored` field; the network is represented by the texts it returns.
 */
module RedisTool {
  import opened Wrappers
  import opened PyText

  // ---------------------------------------------------------------------------------------
  // Sessions

  /** A saved connection; `name` is absent for a hand-written entry without one. */
  datatype Session = Session(
    name: Option<string>,
    host: string,
    port: int,
    password: string,
    db: int,
    clusterMode: bool,
    timestamp: string)

  /** Two sessions describe the same server exactly when these four fields agree. */
  predicate SameTarget(a: Session, b: Session) {
    a.host == b.host && a.port == b.port && a.db == b.db && a.clusterMode == b.clusterMode
  }

  const MaxName := 30
  const Placeholder := "新建会话"

  /** A name longer than 30 characters keeps its first 27 and gets "..."; shorter ones stay. */
  function Truncate(name: string): (r: string)
    ensures |r| <= MaxName
    ensures |name| <= MaxName ==> r == name
    ensures |name| > MaxName ==> |r| == MaxName && r[..27] == name[..27] && r[27..] == "..."
  {
    if |name| > MaxName then name[..27] + "..." else name
  }

  /** Truncating twice is truncating once. */
  lemma TruncateIdempotent(name: string)
    ensures Truncate(Truncate(name)) == Truncate(name)
  {
  }

  /** The text a session gets in the drop-down: its name, or "host:port", truncated. */
  function DisplayName(s: Session): string {
    Truncate(s.name.GetOr(s.host + ":" + IntToString(s.port)))
  }

  /** The name `save_current_session` gives: the two form texts joined by ':', truncated. */
  function SavedName(hostText: string, portText: string): string {
    Truncate(hostText + ":" + portText)
  }

  /** A saved session's name is never the placeholder, so it can always be deleted again. */
  lemma SavedNameNotPlaceholder(hostText: string, portText: string)
    ensures SavedName(hostText, portText) != Placeholder
  {
    var full := hostText + ":" + portText;
    if |full| <= MaxName {
      assert full[|hostText|] == ':';
      assert ':' !in Placeholder;
    }
  }

  /** The session shows its own stored name once that name has been through truncation. */
  lemma SavedNameDisplayed(s: Session, hostText: string, portText: string)
    requires s.name == Some(SavedName(hostText, portText))
    ensures DisplayName(s) == SavedName(hostText, portText)
  {
    TruncateIdempotent(hostText + ":" + portText);
  }

  /** Index of the first session with the same target as `c`, or -1. */
  function FirstMatch(ss: seq<Session>, c: Session): (i: int)
    ensures -1 <= i < |ss|
    ensures i >= 0 ==> SameTarget(ss[i], c) && forall k :: 0 <= k < i ==> !SameTarget(ss[k], c)
    ensures i == -1 ==> forall k :: 0 <= k < |ss| ==> !SameTarget(ss[k], c)
  {
    if ss == [] then -1
    else if SameTarget(ss[0], c) then 0
    else
      var j := FirstMatch(ss[1..], c);
      if j == -1 then -1 else j + 1
  }

  /** The loop of `save_current_session` that looks for an entry with the same target. */
  method FindExistingIndex(ss: seq<Session>, c: Session) returns (existing: int)
    ensures existing == FirstMatch(ss, c)
  {
    existing := -1;
    var i := 0;
    while i < |ss|
      invariant 0 <= i <= |ss|
      invariant forall k :: 0 <= k < i ==> !SameTarget(ss[k], c)
    {
      if SameTarget(ss[i], c) {
        existing := i;
        break;
      }
      i := i + 1;
    }
    FirstMatchUnique(ss, c, existing);
  }

  /** The first-match index is the only index with those two properties. */
  lemma FirstMatchUnique(ss: seq<Session>, c: Session, i: int)
    requires -1 <= i < |ss|
    requires i >= 0 ==> SameTarget(ss[i], c) && forall k :: 0 <= k < i ==> !SameTarget(ss[k], c)
    requires i == -1 ==> forall k :: 0 <= k < |ss| ==> !SameTarget(ss[k], c)
    ensures i == FirstMatch(ss, c)
  {
  }

  /** The list after saving `c`: the first entry with the same target replaced, or `c` appended. */
  function Upsert(ss: seq<Session>, c: Session): seq<Session> {
    var i := FirstMatch(ss, c);
    if i >= 0 then ss[i := c] else ss + [c]
  }

  /** Saving replaces in place the first entry with the same target and touches nothing else. */
  lemma UpsertReplaces(ss: seq<Session>, c: Session)
    requires exists k :: 0 <= k < |ss| && SameTarget(ss[k], c)
    ensures var i := FirstMatch(ss, c); var r := Upsert(ss, c);
      |r| == |ss| && r[i] == c && forall k :: 0 <= k < |ss| && k != i ==> r[k] == ss[k]
  {
  }

  /** Saving a session whose target is new appends it and keeps every existing entry in order. */
  lemma UpsertAppends(ss: seq<Session>, c: Session)
    requires forall k :: 0 <= k < |ss| ==> !SameTarget(ss[k], c)
    ensures Upsert(ss, c) == ss + [c]
  {
    FirstMatchUnique(ss, c, -1);
  }

  /** After saving, exactly one entry has the saved target when at most one had it before. */
  lemma UpsertKeepsTargetUnique(ss: seq<Session>, c: Session)
    requires forall j, k :: 0 <= j < k < |ss| ==> !(SameTarget(ss[j], c) && SameTarget(ss[k], c))
    ensures var r := Upsert(ss, c);
      forall j, k :: 0 <= j < k < |r| ==> !(SameTarget(r[j], c) && SameTarget(r[k], c))
    ensures exists k :: 0 <= k < |Upsert(ss, c)| && Upsert(ss, c)[k] == c
  {
    var r := Upsert(ss, c);
    var i := FirstMatch(ss, c);
    if i >= 0 {
      assert r[i] == c;
    } else {
      assert r[|ss|] == c;
    }
  }

  /** Saving again a session with the same target overwrites the earlier save. */
  lemma UpsertOverwrites(ss: seq<Session>, c1: Session, c2: Session)
    requires SameTarget(c1, c2)
    ensures Upsert(Upsert(ss, c1), c2) == Upsert(ss, c2)
  {
    var i := FirstMatch(ss, c1);
    var r := Upsert(ss, c1);
    assert FirstMatch(ss, c2) == i by { FirstMatchUnique(ss, c2, i); }
    if i >= 0 {
      FirstMatchUnique(r, c2, i);
    } else {
      FirstMatchUnique(r, c2, |ss|);
    }
  }

  /** `[s for s in sessions if not same-target(s, d)]`. */
  function DeleteMatching(ss: seq<Session>, d: Session): (r: seq<Session>)
    ensures forall k :: 0 <= k < |r| ==> !SameTarget(r[k], d)
    ensures |r| <= |ss|
  {
    if ss == [] then []
    else if SameTarget(ss[0], d) then DeleteMatching(ss[1..], d)
    else [ss[0]] + DeleteMatching(ss[1..], d)
  }

  /** Deleting works piece by piece, so the remaining entries keep their original order. */
  lemma {:induction false} DeleteConcat(a: seq<Session>, b: seq<Session>, d: Session)
    ensures DeleteMatching(a + b, d) == DeleteMatching(a, d) + DeleteMatching(b, d)
  {
    if a != [] {
      assert (a + b)[0] == a[0] && (a + b)[1..] == a[1..] + b;
      DeleteConcat(a[1..], b, d);
    } else {
      assert a + b == b;
    }
  }

  /** An entry with another target survives deletion; one with the deleted target does not. */
  lemma DeleteSingle(s: Session, d: Session)
    ensures DeleteMatching([s], d) == if SameTarget(s, d) then [] else [s]
  {
  }

  /** Entries with other targets are all kept. */
  lemma {:induction false} DeleteKeepsOthers(ss: seq<Session>, d: Session)
    requires forall k :: 0 <= k < |ss| ==> !SameTarget(ss[k], d)
    ensures DeleteMatching(ss, d) == ss
  {
    if ss != [] {
      DeleteKeepsOthers(ss[1..], d);
    }
  }

  /** Replacing an entry that has the deleted target by another such entry changes nothing. */
  lemma {:induction false} DeleteReplace(ss: seq<Session>, i: nat, x: Session, d: Session)
    requires i < |ss| && SameTarget(ss[i], d) && SameTarget(x, d)
    ensures DeleteMatching(ss[i := x], d) == DeleteMatching(ss, d)
  {
    var r := ss[i := x];
    if i == 0 {
      assert r[1..] == ss[1..];
    } else {
      assert r[0] == ss[0] && r[1..] == ss[1..][i - 1 := x];
      DeleteReplace(ss[1..], i - 1, x, d);
    }
  }

  /** Deleting a target right after saving it leaves what deleting it would have left before. */
  lemma DeleteAfterUpsert(ss: seq<Session>, c: Session)
    ensures DeleteMatching(Upsert(ss, c), c) == DeleteMatching(ss, c)
  {
    var i := FirstMatch(ss, c);
    if i >= 0 {
      DeleteReplace(ss, i, c, c);
    } else {
      DeleteConcat(ss, [c], c);
      DeleteSingle(c, c);
    }
  }

  // ---------------------------------------------------------------------------------------
  // The `CLUSTER NODES` reply

  /** A startup node for the cluster client. */
  datatype Node = Node(host: string, port: int)

  /** What one reply line contributes: nothing, a node, or an exception that ends the scan. */
  datatype LineVerdict = Skip | Found(node: Node) | Malformed

  /**
   * One line of the reply: only a non-blank line mentioning `myself` counts; its second field,
   * cut at '@', must be "host:port" with exactly one ':' and an integer port. A second field
   * without ':' is passed over; a missing second field, a second ':' or a bad port raise.
   */
  function LineNode(line: string): LineVerdict {
    if Strip(line) == [] || !Contains(line, "myself") then Skip
    else
      var parts := Words(line);
      if |parts| < 2 then Malformed
      else HostPortNode(Before(parts[1], '@'))
  }

  /** The second field after the '@' cut: no ':' is passed over, otherwise "host:port" or a raise. */
  function HostPortNode(hostPort: string): LineVerdict {
    if ':' !in hostPort then Skip
    else
      var pieces := Split(hostPort, ':');
      if |pieces| != 2 then Malformed
      else match PyInt(pieces[1])
        case None => Malformed
        case Some(p) => Found(Node(pieces[0], p))
  }

  /** The scan after one more line: a found node is appended, a raising line ends the scan. */
  function Step(acc: Option<seq<Node>>, v: LineVerdict): Option<seq<Node>> {
    match acc
    case None => None
    case Some(ns) =>
      match v
      case Skip => Some(ns)
      case Found(n) => Some(ns + [n])
      case Malformed => None
  }

  /** The nodes collected from `lines`, or `None` once a line raises. */
  function NodesFrom(lines: seq<string>): Option<seq<Node>> {
    if lines == [] then Some([])
    else Step(NodesFrom(lines[..|lines| - 1]), LineNode(lines[|lines| - 1]))
  }

  /**
   * The startup nodes: the collected `myself` nodes; the configured host and port when the
   * command failed (`reply == None`), a line raised, or no node was found.
   */
  function StartupNodes(reply: Option<string>, host: string, port: int): seq<Node> {
    match reply
    case None => [Node(host, port)]
    case Some(text) =>
      match NodesFrom(Split(text, '\n'))
      case Some(ns) => if ns == [] then [Node(host, port)] else ns
      case None => [Node(host, port)]
  }

  /** Scanning one more line is one more `Step`. */
  lemma NodesFromSnoc(lines: seq<string>, i: nat)
    requires i < |lines|
    ensures NodesFrom(lines[..i + 1]) == Step(NodesFrom(lines[..i]), LineNode(lines[i]))
  {
    assert lines[..i + 1][..i] == lines[..i];
  }

  /** Once a line has raised, later lines cannot bring the scan back. */
  lemma {:induction false} NodesFromFails(lines: seq<string>, n: nat)
    requires n <= |lines| && NodesFrom(lines[..n]) == None
    ensures NodesFrom(lines) == None
    decreases |lines| - n
  {
    if n < |lines| {
      NodesFromSnoc(lines, n);
      NodesFromFails(lines, n + 1);
    } else {
      assert lines[..n] == lines;
    }
  }

  /** The discovery step of `RedisConnectionThread.run` in cluster mode. */
  method DiscoverNodes(reply: Option<string>, host: string, port: int) returns (nodes: seq<Node>)
    ensures nodes == StartupNodes(reply, host, port)
    ensures nodes != []
  {
    if reply.None? {
      return [Node(host, port)];
    }
    var found := ScanLines(Split(reply.value, '\n'));
    if found.None? || found.value == [] {
      nodes := [Node(host, port)];
    } else {
      nodes := found.value;
    }
  }

  /** The loop over the reply lines: collect each `myself` node, stop at the first line that raises. */
  method ScanLines(lines: seq<string>) returns (found: Option<seq<Node>>)
    ensures found == NodesFrom(lines)
  {
    var nodes := [];
    var i := 0;
    while i < |lines|
      invariant 0 <= i <= |lines|
      invariant NodesFrom(lines[..i]) == Some(nodes)
    {
      var next := ScanLine(lines, i, nodes);
      if next.None? {
        NodesFromFails(lines, i + 1);
        return None;
      }
      nodes := next.value;
      i := i + 1;
    }
    assert lines[..i] == lines;
    return Some(nodes);
  }

  /** One turn of the scan loop: the line at `i` adds its node, is passed over, or raises. */
  method ScanLine(lines: seq<string>, i: nat, nodes: seq<Node>) returns (next: Option<seq<Node>>)
    requires i < |lines| && NodesFrom(lines[..i]) == Some(nodes)
    ensures next == NodesFrom(lines[..i + 1])
  {
    NodesFromSnoc(lines, i);
    match LineNode(lines[i]) {
      case Skip => next := Some(nodes);
      case Found(n) => next := Some(nodes + [n]);
      case Malformed => next := None;
    }
  }

  /** A discovered node's host is a plain name: no ':', no '@' and no white space. */
  lemma FoundHostIsPlain(line: string)
    requires LineNode(line).Found?
    ensures var h := LineNode(line).node.host;
      ':' !in h && '@' !in h && forall k :: 0 <= k < |h| ==> !IsSpace(h[k])
  {
    var parts := Words(line);
    assert |parts| >= 2;
    var hostPort := Before(parts[1], '@');
    var pieces := Split(hostPort, ':');
    assert ':' in hostPort && |pieces| == 2;
    assert LineNode(line).node.host == pieces[0];
    HostPiecePlain(parts[1]);
  }

  /**
   * A discovered node is what its line says: the second field, cut at '@', is the host, one
   * ':' and a port text that `int()` reads as the node's port.
   */
  lemma FoundNodeParts(line: string)
    requires LineNode(line).Found?
    ensures |Words(line)| >= 2
    ensures var n := LineNode(line).node;
      exists t :: Before(Words(line)[1], '@') == n.host + [':'] + t && ':' !in t && PyInt(t) == Some(n.port)
  {
    var hostPort := Before(Words(line)[1], '@');
    assert LineNode(line) == HostPortNode(hostPort);
    HostPortParts(hostPort);
  }

  /** A found node's `host:port` text is the host, one ':' and a port text `int()` reads. */
  lemma HostPortParts(hostPort: string)
    requires HostPortNode(hostPort).Found?
    ensures var n := HostPortNode(hostPort).node;
      exists t :: hostPort == n.host + [':'] + t && ':' !in t && PyInt(t) == Some(n.port)
  {
    var pieces := Split(hostPort, ':');
    SplitTwo(hostPort);
    assert hostPort == pieces[0] + [':'] + pieces[1] && ':' !in pieces[1];
  }

  /** Text that splits into two pieces at ':' is the first piece, ':' and the second. */
  lemma SplitTwo(s: string)
    requires |Split(s, ':')| == 2
    ensures s == Split(s, ':')[0] + [':'] + Split(s, ':')[1]
  {
    var pieces := Split(s, ':');
    SplitJoin(s, ':');
    assert pieces[1..] == [pieces[1]];
  }

  /**
   * The converse: a non-blank `myself` line whose second field, cut at '@', is a host, one ':'
   * and an integer port yields exactly that node.
   */
  lemma NodeFromParts(line: string, h: string, t: string, p: int)
    requires Strip(line) != [] && Contains(line, "myself") && |Words(line)| >= 2
    requires Before(Words(line)[1], '@') == h + [':'] + t
    requires ':' !in h && ':' !in t && PyInt(t) == Some(p)
    ensures LineNode(line) == Found(Node(h, p))
  {
    assert LineNode(line) == HostPortNode(h + [':'] + t);
    HostPortFound(h, t, p);
  }

  /** `HostPortNode` on "host:port" with no other ':' and an integer port text finds that node. */
  lemma HostPortFound(h: string, t: string, p: int)
    requires ':' !in h && ':' !in t && PyInt(t) == Some(p)
    ensures HostPortNode(h + [':'] + t) == Found(Node(h, p))
  {
    HostPortSplit(h, t);
  }

  /** "host:port" with no other ':' splits into the host and the port text. */
  lemma HostPortSplit(h: string, t: string)
    requires ':' !in h && ':' !in t
    ensures ':' in h + [':'] + t && Split(h + [':'] + t, ':') == [h, t]
  {
    SplitAfter(h, t, ':');
    SplitNoSep(t, ':');
    assert (h + [':'] + t)[|h|] == ':';
  }

  /** The text before the first ':' of a white-space-free field cut at '@' is a plain name. */
  lemma HostPiecePlain(field: string)
    requires forall k :: 0 <= k < |field| ==> !IsSpace(field[k])
    ensures var h := Split(Before(field, '@'), ':')[0];
      ':' !in h && '@' !in h && forall k :: 0 <= k < |h| ==> !IsSpace(h[k])
  {
    var hostPort := Before(field, '@');
    var pieces := Split(hostPort, ':');
    SplitJoin(hostPort, ':');
    if |pieces| == 1 {
      assert hostPort == pieces[0];
    } else {
      assert hostPort == pieces[0] + [':'] + Join(pieces[1..], ':');
    }
    forall k | 0 <= k < |pieces[0]|
      ensures pieces[0][k] == hostPort[k] && !IsSpace(pieces[0][k]) && pieces[0][k] != '@'
    {
      assert hostPort[k] == field[k];
    }
  }

  /** The reply lines that mention `myself`, in their order. */
  function MyselfLines(lines: seq<string>): (r: seq<string>)
    ensures |r| <= |lines|
    ensures forall k :: 0 <= k < |r| ==> Contains(r[k], "myself")
  {
    if lines == [] then []
    else
      var last := lines[|lines| - 1];
      MyselfLines(lines[..|lines| - 1]) + (if Contains(last, "myself") then [last] else [])
  }

  /** Lines that do not mention `myself` can be dropped from a reply without changing the scan. */
  lemma {:induction false} OtherLinesSkipped(lines: seq<string>)
    ensures NodesFrom(MyselfLines(lines)) == NodesFrom(lines)
  {
    if lines != [] {
      var init, last := lines[..|lines| - 1], lines[|lines| - 1];
      OtherLinesSkipped(init);
      var m := MyselfLines(init);
      if Contains(last, "myself") {
        assert (m + [last])[..|m|] == m;
      } else {
        assert LineNode(last) == Skip;
        assert MyselfLines(lines) == m + [] == m;
        assert NodesFrom(lines) == Step(NodesFrom(init), Skip) == NodesFrom(init);
      }
    }
  }

  // ---------------------------------------------------------------------------------------
  // Connection errors

  /**
   * A classification rule: it applies when, for every group, at least one of the group's
   * keywords occurs in the lower-cased message.
   */
  datatype Rule = Rule(groups: seq<seq<string>>, message: string)

  predicate AnyIn(text: string, keywords: seq<string>) {
    exists k :: 0 <= k < |keywords| && Contains(text, keywords[k])
  }

  predicate Applies(r: Rule, text: string) {
    forall g :: 0 <= g < |r.groups| ==> AnyIn(text, r.groups[g])
  }

  const NotClusterMessage := "目标Redis不是集群模式，请使用单机模式"
  const ClusterDownMessage := "集群已下线，请检查集群状态"
  const TimeoutMessage := "连接超时，请检查网络、防火墙或Redis配置"
  const RefusedMessage := "连接被拒绝，请检查Redis是否运行、端口是否正确"
  const AuthMessage := "认证失败，请检查密码是否正确"
  const BusyMessage := "Redis正忙，请稍后重试"
  const FailurePrefix := "连接失败: "

  /** The rules of `run`'s error handler, in the order they are tried. */
  const Rules := [
    Rule([["cluster"], ["not", "no"]], NotClusterMessage),
    Rule([["clusterdown"]], ClusterDownMessage),
    Rule([["timeout"]], TimeoutMessage),
    Rule([["connection", "refused"]], RefusedMessage),
    Rule([["auth", "password"]], AuthMessage),
    Rule([["busy"]], BusyMessage)
  ]

  /** The message of the first rule that applies, if any. */
  function FirstRule(rules: seq<Rule>, text: string): (r: Option<string>)
    ensures r.None? <==> forall k :: 0 <= k < |rules| ==> !Applies(rules[k], text)
    ensures r.Some? ==> exists k :: (0 <= k < |rules| && Applies(rules[k], text) &&
      r.value == rules[k].message && forall j :: 0 <= j < k ==> !Applies(rules[j], text))
  {
    if rules == [] then None
    else if Applies(rules[0], text) then Some(rules[0].message)
    else
      var r := FirstRule(rules[1..], text);
      assert r.Some? ==> exists k :: (1 <= k < |rules| && Applies(rules[k], text) &&
        r.value == rules[k].message && forall j :: 1 <= j < k ==> !Applies(rules[j], text)) by {
        if r.Some? {
          var k :| 0 <= k < |rules| - 1 && Applies(rules[1..][k], text) &&
            r.value == rules[1..][k].message && forall j :: 0 <= j < k ==> !Applies(rules[1..][j], text);
          assert forall j :: 1 <= j < k + 1 ==> rules[j] == rules[1..][j - 1];
        }
      }
      r
  }

  /** The message shown for a failed connection, given `str(e)`. */
  function ClassifyError(error: string): string {
    match FirstRule(Rules, Lower(error))
    case Some(m) => m
    case None => FailurePrefix + error
  }

  /** The generic text, with the original message, appears exactly when no rule applies. */
  lemma ClassifyFallback(error: string)
    ensures ClassifyError(error) == FailurePrefix + error <==>
      forall k :: 0 <= k < |Rules| ==> !Applies(Rules[k], Lower(error))
  {
    var r := FirstRule(Rules, Lower(error));
    if r.Some? {
      var k :| 0 <= k < |Rules| && Applies(Rules[k], Lower(error)) && r.value == Rules[k].message &&
        forall j :: 0 <= j < k ==> !Applies(Rules[j], Lower(error));
      var e := FailurePrefix + error;
      assert e[0] == '连' && e[2] == '失';
      RuleMessageShape(k);
    }
  }

  /** No rule's message starts like the generic failure text. */
  lemma RuleMessageShape(k: int)
    requires 0 <= k < |Rules|
    ensures |Rules[k].message| > 2 && (Rules[k].message[0] != '连' || Rules[k].message[2] != '失')
  {
  }

  /** Where a word occurs, every prefix of it occurs too. */
  lemma ContainsPrefix(text: string, word: string, n: nat)
    requires n <= |word|
    ensures Contains(text, word) ==> Contains(text, word[..n])
  {
    if Contains(text, word) {
      var i :| 0 <= i <= |text| - |word| && OccursAt(text, word, i);
      assert text[i..i + n] == text[i..i + |word|][..n];
      assert OccursAt(text, word[..n], i);
    }
  }

  /**
   * "clusterdown" contains "cluster", so a CLUSTERDOWN error whose text also contains "no"
   * anywhere (as in "not", "node" or "unknown") is reported by the first rule, not the second.
   */
  lemma ClusterDownShadowed(error: string)
    requires Contains(Lower(error), "clusterdown") && Contains(Lower(error), "no")
    ensures ClassifyError(error) == NotClusterMessage
  {
    var t := Lower(error);
    ContainsPrefix(t, "clusterdown", 7);
    assert "clusterdown"[..7] == "cluster";
    assert AnyIn(t, ["cluster"]) by { assert Contains(t, ["cluster"][0]); }
    assert AnyIn(t, ["not", "no"]) by { assert Contains(t, ["not", "no"][1]); }
    assert Applies(Rules[0], t);
  }

  /** With no cluster keyword, a timeout is reported as a timeout whatever else the text says. */
  lemma TimeoutClassified(error: string)
    requires !Contains(Lower(error), "cluster") && Contains(Lower(error), "timeout")
    ensures ClassifyError(error) == TimeoutMessage
  {
    var t := Lower(error);
    assert !AnyIn(t, ["cluster"]);
    assert !Applies(Rules[0], t) by { assert !AnyIn(t, Rules[0].groups[0]); }
    assert !Contains(t, "clusterdown") by {
      ContainsPrefix(t, "clusterdown", 7);
      assert "clusterdown"[..7] == "cluster";
    }
    assert !Applies(Rules[1], t) by { assert !AnyIn(t, Rules[1].groups[0]); }
    assert Applies(Rules[2], t) by { assert Contains(t, Rules[2].groups[0][0]); }
  }

  /**
   * The narrower check of the last-resort cluster connection: `Some` of the replacement text,
   * or `None` when the original exception is raised again unchanged.
   */
  function ClassifyClusterError(error: string): (r: Option<string>)
    ensures r.None? <==> (!(Contains(Lower(error), "cluster") && Contains(Lower(error), "not")) &&
      !Contains(Lower(error), "connection") && !Contains(Lower(error), "timeout"))
  {
    var t := Lower(error);
    if Contains(t, "cluster") && Contains(t, "not") then Some("目标Redis不是集群模式，请检查配置")
    else if Contains(t, "connection") || Contains(t, "timeout") then Some(FailurePrefix + error)
    else None
  }

  // ---------------------------------------------------------------------------------------
  // The key list

  const Forever := "永久"

  /** The TTL column: the number of seconds when positive, "永久" otherwise. */
  function TtlText(ttl: int): string {
    if ttl > 0 then IntToString(ttl) else Forever
  }

  /** "永久" is shown exactly for TTLs of 0 or below; a positive TTL reads back as itself. */
  lemma TtlTextMeaning(ttl: int)
    ensures TtlText(ttl) == Forever <==> ttl <= 0
    ensures ttl > 0 ==> PyInt(TtlText(ttl)) == Some(ttl)
  {
    if ttl > 0 {
      IntRoundTrip(ttl);
      assert IntToString(ttl) == NatToString(ttl);
      assert IsDigit(IntToString(ttl)[0]) && !IsDigit(Forever[0]);
    }
  }

  // ---------------------------------------------------------------------------------------
  // The session drop-down and the connection form

  /** One entry of the session drop-down: its text and the session behind it (none for the placeholder). */
  datatype ComboItem = ComboItem(text: string, data: Option<Session>)

  /** The connection form: host, port text, password, db spin box and cluster check box. */
  datatype Form = Form(host: string, portText: string, password: string, db: int, clusterMode: bool)

  datatype Dialog =
    | Warning(title: string, text: string)
    | Info(title: string, text: string)
    | Critical(title: string, text: string)

  /** The drop-down `load_sessions` builds: the placeholder, then one entry per session in order. */
  function ComboFor(ss: seq<Session>): (r: seq<ComboItem>)
    ensures |r| == |ss| + 1 && r[0] == ComboItem(Placeholder, None)
  {
    if ss == [] then [ComboItem(Placeholder, None)]
    else ComboFor(ss[..|ss| - 1]) + [ComboItem(DisplayName(ss[|ss| - 1]), Some(ss[|ss| - 1]))]
  }

  /** Entry `k + 1` of the drop-down is session `k`, under its display name. */
  lemma {:induction false} ComboForAt(ss: seq<Session>, k: nat)
    requires k < |ss|
    ensures ComboFor(ss)[k + 1] == ComboItem(DisplayName(ss[k]), Some(ss[k]))
  {
    if k < |ss| - 1 {
      ComboForAt(ss[..|ss| - 1], k);
    }
  }

  /** One more session adds one more entry at the end. */
  lemma ComboForSnoc(ss: seq<Session>, i: nat)
    requires i < |ss|
    ensures ComboFor(ss[..i + 1]) == ComboFor(ss[..i]) + [ComboItem(DisplayName(ss[i]), Some(ss[i]))]
  {
    assert ss[..i + 1][..i] == ss[..i];
  }

  /** The entries `load_sessions` adds one by one: the placeholder first, then each session. */
  method ComboEntries(ss: seq<Session>) returns (items: seq<ComboItem>)
    ensures items == ComboFor(ss)
  {
    items := [ComboItem(Placeholder, None)];
    var i := 0;
    while i < |ss|
      invariant 0 <= i <= |ss|
      invariant items == ComboFor(ss[..i])
    {
      ComboForSnoc(ss, i);
      items := items + [ComboItem(DisplayName(ss[i]), Some(ss[i]))];
      i := i + 1;
    }
    assert ss[..i] == ss;
  }

  /** `QComboBox.findText`: the first entry with exactly this text, or -1. */
  function FindText(items: seq<ComboItem>, text: string): (i: int)
    ensures -1 <= i < |items|
    ensures i >= 0 ==> items[i].text == text && forall k :: 0 <= k < i ==> items[k].text != text
    ensures i == -1 ==> forall k :: 0 <= k < |items| ==> items[k].text != text
  {
    if items == [] then -1
    else if items[0].text == text then 0
    else
      var j := FindText(items[1..], text);
      if j == -1 then -1 else j + 1
  }

  /** `QSpinBox.setValue` with the range 0..15: out-of-range values are clamped. */
  function ClampDb(db: int): (r: int)
    ensures 0 <= r <= 15
    ensures 0 <= db <= 15 ==> r == db
    ensures db < 0 ==> r == 0
    ensures db > 15 ==> r == 15
  {
    if db < 0 then 0 else if db > 15 then 15 else db
  }

  /** The form filled in from a session, as `load_session_config` does. */
  function FormOf(s: Session): Form {
    Form(s.host, IntToString(s.port), s.password, ClampDb(s.db), s.clusterMode)
  }

  /** What `load_session_config` leaves in the form for a drop-down entry: nothing changes for the placeholder text. */
  function FormFor(f: Form, item: ComboItem): Form {
    if item.text == Placeholder || item.data.None? then f else FormOf(item.data.value)
  }

  /**
   * After `load_sessions` the first session is selected and loaded into the form (unless its
   * text is the placeholder's); with no sessions the form keeps what it had.
   */
  function FormAfterLoad(f: Form, ss: seq<Session>): Form {
    if ss == [] then f else FormFor(f, ComboItem(DisplayName(ss[0]), Some(ss[0])))
  }

  /** The error dialog of a failed save, with `str()` of the exception. */
  function SaveFailed(message: string): Dialog {
    Critical("错误", "保存会话失败: " + message)
  }

  /** The confirmation of a save. */
  const SavedInfo := Info("成功", "会话已保存")

  /** The session saved from a form and a clock reading, with its port already parsed. */
  function ConfigOf(f: Form, port: int, now: int): Session {
    Session(Some(SavedName(f.host, f.portText)), f.host, port, f.password, f.db, f.clusterMode, IntToString(now))
  }

  /**
   * After saving, `findText` on the saved name finds a session entry (never the placeholder)
   * at or before the saved session's own entry.
   */
  lemma SaveSelectsSavedName(ss: seq<Session>, c: Session, hostText: string, portText: string,
                              r: seq<Session>, items: seq<ComboItem>)
    requires c.name == Some(SavedName(hostText, portText))
    requires r == Upsert(ss, c) && items == ComboFor(r)
    ensures var i := FindText(items, SavedName(hostText, portText));
      1 <= i && items[i].text == SavedName(hostText, portText) && items[i].data.Some?
  {
    var j := FirstMatch(ss, c);
    var at := if j >= 0 then j else |ss|;
    assert r[at] == c;
    FindSavedName(r, at, c, hostText, portText, items);
  }

  /** Wherever the saved session sits in the list, `findText` on its name finds a session entry. */
  lemma FindSavedName(r: seq<Session>, at: int, c: Session, hostText: string, portText: string,
                       items: seq<ComboItem>)
    requires 0 <= at < |r| && r[at] == c && c.name == Some(SavedName(hostText, portText))
    requires items == ComboFor(r)
    ensures var i := FindText(items, SavedName(hostText, portText));
      1 <= i <= at + 1 && items[i].text == SavedName(hostText, portText) && items[i].data.Some?
  {
    var name := SavedName(hostText, portText);
    SavedNameNotPlaceholder(hostText, portText);
    SavedNameDisplayed(c, hostText, portText);
    ComboForAt(r, at);
    assert items[at + 1].text == name;
    var i := FindText(items, name);
    assert i != 0;
    ComboForAt(r, i - 1);
  }

  /**
   * The Redis tool's session state: the session file's list, the drop-down built from it,
   * the selected entry, the form, and the dialogs shown so far (oldest first).
   */
  class RedisSessions {
    var stored: seq<Session>
    var combo: seq<ComboItem>
    var current: int
    var form: Form
    var dialogs: seq<Dialog>

    /** The drop-down always mirrors the stored list, and the selection is one of its entries. */
    ghost predicate Valid()
      reads this`stored, this`combo, this`current, this`form
    {
      combo == ComboFor(stored) && 0 <= current < |combo| && 0 <= form.db <= 15
    }

    /** The tool starts with the default form and then loads the session file. */
    constructor(file: seq<Session>)
      ensures Valid()
      ensures stored == file && current == (if file == [] then 0 else 1)
      ensures form == FormAfterLoad(Form("localhost", "6379", "", 0, false), file)
      ensures dialogs == []
    {
      stored := file;
      combo := [];
      current := 0;
      form := Form("localhost", "6379", "", 0, false);
      dialogs := [];
      new;
      LoadSessions();
    }

    /** `load_sessions`: rebuild the drop-down entry by entry, then select and load the first session. */
    method LoadSessions()
      requires 0 <= form.db <= 15
      modifies this
      ensures Valid()
      ensures stored == old(stored) && dialogs == old(dialogs)
      ensures current == if stored == [] then 0 else 1
      ensures form == FormAfterLoad(old(form), stored)
    {
      combo := ComboEntries(stored);
      current := 0;
      if stored != [] {
        SelectFirst();
      }
    }

    /** With at least one session listed, select its entry and load it into the form. */
    method SelectFirst()
      requires stored != [] && combo == ComboFor(stored) && 0 <= form.db <= 15
      modifies this
      ensures Valid() && current == 1
      ensures stored == old(stored) && dialogs == old(dialogs)
      ensures form == FormAfterLoad(old(form), stored)
    {
      current := 1;
      ComboForAt(stored, 0);
      LoadSessionConfig();
    }

    /** `load_session_config` for the selected entry: nothing for the placeholder text. */
    method LoadSessionConfig()
      requires 0 <= current < |combo|
      modifies this
      ensures stored == old(stored) && combo == old(combo) && current == old(current) && dialogs == old(dialogs)
      ensures form == FormFor(old(form), combo[current])
    {
      var item := combo[current];
      if item.text == Placeholder {
        return;
      }
      match item.data {
        case None =>
        case Some(s) => form := FormOf(s);
      }
    }

    /** The user picks an entry of the drop-down; nothing is loaded by that alone. */
    method SelectSession(i: int)
      requires Valid() && 0 <= i < |combo|
      modifies this
      ensures Valid()
      ensures current == i
      ensures stored == old(stored) && form == old(form) && dialogs == old(dialogs)
    {
      current := i;
    }

    /** The user edits the form. */
    method EditForm(f: Form)
      requires Valid() && 0 <= f.db <= 15
      modifies this
      ensures Valid()
      ensures form == f
      ensures stored == old(stored) && current == old(current) && dialogs == old(dialogs)
    {
      form := f;
    }

    /**
     * `save_current_session`: a port text `int()` rejects gives the error dialog and changes
     * nothing else; otherwise the form's session is upserted, the list reloaded, the saved
     * name selected, and a confirmation shown. `intError` is `str()` of the `ValueError`.
     */
    method SaveCurrentSession(now: int, intError: string -> string)
      requires Valid()
      modifies this
      ensures Valid()
      ensures PyInt(old(form).portText).None? ==>
        stored == old(stored) && current == old(current) && form == old(form) &&
        dialogs == old(dialogs) + [SaveFailed(intError(old(form).portText))]
      ensures PyInt(old(form).portText).Some? ==>
        var c := ConfigOf(old(form), PyInt(old(form).portText).value, now);
        stored == Upsert(old(stored), c) &&
        current == FindText(combo, c.name.value) && current >= 1 &&
        form == FormAfterLoad(old(form), stored) &&
        dialogs == old(dialogs) + [SavedInfo]
    {
      var f := form;
      var port := PyInt(f.portText);
      if port.None? {
        RejectPort(SaveFailed(intError(f.portText)));
      } else {
        SaveParsed(port.value, now);
      }
    }

    /** `save_current_session` when the port text does not parse: the error dialog, and nothing else changes. */
    method RejectPort(d: Dialog)
      requires Valid()
      modifies this
      ensures Valid()
      ensures stored == old(stored) && current == old(current) && form == old(form) &&
        dialogs == old(dialogs) + [d]
    {
      ShowDialog(d);
    }

    /** `save_current_session` once the port text has parsed as `port`. */
    method SaveParsed(port: int, now: int)
      requires Valid()
      modifies this
      ensures Valid()
      ensures var c := ConfigOf(old(form), port, now);
        stored == Upsert(old(stored), c) &&
        current == FindText(combo, c.name.value) && current >= 1 &&
        form == FormAfterLoad(old(form), stored) &&
        dialogs == old(dialogs) + [SavedInfo]
    {
      var f := form;
      SaveConfig(ConfigOf(f, port, now), f);
    }

    /** What `save_current_session` does once the port text has parsed. */
    method SaveConfig(config: Session, f: Form)
      requires Valid() && config.name == Some(SavedName(f.host, f.portText))
      modifies this
      ensures Valid()
      ensures stored == Upsert(old(stored), config) &&
        current == FindText(combo, config.name.value) && current >= 1 &&
        form == FormAfterLoad(old(form), stored) &&
        dialogs == old(dialogs) + [SavedInfo]
    {
      ghost var at := StoreSession(config);
      ReloadAndSelect(at, config, f);
      ShowDialog(SavedInfo);
    }

    /** `show_message`: one more dialog, and nothing else changes. */
    method ShowDialog(d: Dialog)
      requires Valid()
      modifies this`dialogs
      ensures Valid()
      ensures dialogs == old(dialogs) + [d]
    {
      dialogs := dialogs + [d];
    }

    /** Reload the list, then select the saved name: that always lands on a session entry. */
    method ReloadAndSelect(ghost at: nat, config: Session, f: Form)
      requires at < |stored| && stored[at] == config && 0 <= form.db <= 15
      requires config.name == Some(SavedName(f.host, f.portText))
      modifies this
      ensures Valid()
      ensures current == FindText(combo, config.name.value) && current >= 1
      ensures stored == old(stored) && form == FormAfterLoad(old(form), stored) && dialogs == old(dialogs)
    {
      LoadSessions();
      FindSavedName(stored, at, config, f.host, f.portText, combo);
      SelectText(config.name.value);
    }

    /** `setCurrentIndex(findText(text))` when the text is found; otherwise the selection stays. */
    method SelectText(text: string)
      requires Valid()
      modifies this
      ensures Valid()
      ensures var i := FindText(old(combo), text); current == if i >= 0 then i else old(current)
      ensures stored == old(stored) && form == old(form) && dialogs == old(dialogs)
    {
      var index := FindText(combo, text);
      if index >= 0 {
        current := index;
      }
    }

    /** The upsert step of `save_current_session`: replace the first same-target entry, or append. */
    method StoreSession(config: Session) returns (ghost at: nat)
      modifies this
      ensures stored == Upsert(old(stored), config)
      ensures at < |stored| && stored[at] == config
      ensures form == old(form) && dialogs == old(dialogs)
    {
      var existing := FindExistingIndex(stored, config);
      if existing >= 0 {
        stored := stored[existing := config];
        at := existing;
      } else {
        stored := stored + [config];
        at := |stored| - 1;
      }
    }

    /**
     * `delete_current_session`: the placeholder entry is refused with a warning; an unconfirmed
     * delete changes nothing; a confirmed one removes every stored session with the selected
     * session's target, reloads the list and selects the placeholder.
     */
    method DeleteCurrentSession(confirmed: bool)
      requires Valid()
      modifies this
      ensures Valid()
      ensures old(combo[current].text) == Placeholder ==>
        stored == old(stored) && current == old(current) && form == old(form) &&
        dialogs == old(dialogs) + [Warning("警告", "无法删除新建会话")]
      ensures old(combo[current].text) != Placeholder && !confirmed ==>
        stored == old(stored) && current == old(current) && form == old(form) && dialogs == old(dialogs)
      ensures old(combo[current].text) != Placeholder && confirmed ==>
        stored == DeleteMatching(old(stored), old(stored)[old(current) - 1]) && current == 0 &&
        form == FormAfterLoad(old(form), stored) &&
        dialogs == old(dialogs) + [Info("成功", "会话已删除")]
    {
      var item := combo[current];
      if item.text == Placeholder {
        ShowDialog(Warning("警告", "无法删除新建会话"));
        return;
      }
      if !confirmed {
        return;
      }
      DeleteSelected();
    }

    /** The confirmed delete of the selected session entry. */
    method DeleteSelected()
      requires Valid() && combo[current].text != Placeholder
      modifies this
      ensures Valid()
      ensures old(current) >= 1
      ensures stored == DeleteMatching(old(stored), old(stored)[old(current) - 1]) && current == 0 &&
        form == FormAfterLoad(old(form), stored) &&
        dialogs == old(dialogs) + [Info("成功", "会话已删除")]
    {
      ComboForAt(stored, current - 1);
      DeleteTarget(combo[current].data.value);
    }

    /** The confirmed delete: drop every session with `data`'s target, reload, select the placeholder. */
    method DeleteTarget(data: Session)
      requires 0 <= form.db <= 15
      modifies this
      ensures Valid()
      ensures stored == DeleteMatching(old(stored), data) && current == 0 &&
        form == FormAfterLoad(old(form), stored) &&
        dialogs == old(dialogs) + [Info("成功", "会话已删除")]
    {
      stored := DeleteMatching(stored, data);
      LoadSessions();
      current := 0;
      dialogs := dialogs + [Info("成功", "会话已删除")];
    }
  }
}

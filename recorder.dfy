/**
 The string synthesis of the single-node recorder: the parameter-file name
 derived from a node's namespace and name, the name of the timestamped log
 directory, the `ros2 bag record` command over the node's subscriptions, the
 `ros2 run` command that relaunches the node, and the `ros2 param dump`
 command and launch-script name that `main` derives from the same identity.
 */
module Recorder {
  import opened Text

  /** One entry of the middleware's subscriber introspection: (topic, types). */
  type Subscription = (string, seq<string>)

  /** One topic remapping (from, to), as enumerated from the remapping table. */
  type Remapping = (string, string)

  const Extension: string := ".yaml"

  predicate StartsWith(s: string, p: string) { |p| <= |s| && s[..|p|] == p }

  predicate EndsWith(s: string, p: string) { |p| <= |s| && s[|s| - |p|..] == p }

  /** No character of `s` is a space. */
  predicate Word(s: string) { ' ' !in s }

  // ---------------------------------------------------------------------------
  // Parameter-file name

  /** The namespace with one leading '/' removed, if it has one. */
  function StripLeadingSlash(ns: string): string
    requires |ns| > 0
  {
    if ns[0] == '/' then ns[1..] else ns
  }

  /** Python's `s.replace("/", "__")`. */
  function Flatten(s: string): string
  {
    Replace(s, '/', "__")
  }

  /** The file the node's parameters are dumped to; the namespace must be non-empty. */
  function ParamsFileName(ns: string, nodeName: string): (r: string)
    requires |ns| > 0
    ensures '/' !in r
    ensures EndsWith(r, Extension)
  {
    var joined := StripLeadingSlash(ns) + "/" + nodeName;
    ReplaceAppend(joined, Extension, '/', "__");
    Flatten(joined + Extension)
  }

  /** The file name is the flattened namespace (one leading slash removed),
      "__", the flattened node name and the extension. */
  lemma ParamsFileNameShape(ns: string, nodeName: string)
    requires |ns| > 0
    ensures ParamsFileName(ns, nodeName)
         == Flatten(StripLeadingSlash(ns)) + "__" + Flatten(nodeName) + Extension
  {
    var n := StripLeadingSlash(ns);
    ReplaceAppend(n + "/" + nodeName, Extension, '/', "__");
    ReplaceAppend(n + "/", nodeName, '/', "__");
    ReplaceAppend(n, "/", '/', "__");
    assert Flatten("/") == "__" by {
      assert "/"[1..] == [];
    }
    assert Flatten(Extension) == Extension;
  }

  /** Exactly one leading slash is removed: whatever follows it, including a
      second slash, is flattened. */
  lemma OneLeadingSlashRemoved(rest: string, nodeName: string)
    ensures ParamsFileName("/" + rest, nodeName)
         == Flatten(rest) + "__" + Flatten(nodeName) + Extension
  {
    ParamsFileNameShape("/" + rest, nodeName);
    assert ("/" + rest)[1..] == rest;
  }

  /** The leading slash is optional: a namespace without one names the same file. */
  lemma LeadingSlashOptional(ns: string, nodeName: string)
    requires |ns| > 0 && ns[0] != '/'
    ensures ParamsFileName(ns, nodeName) == ParamsFileName("/" + ns, nodeName)
  {
    ParamsFileNameShape(ns, nodeName);
    OneLeadingSlashRemoved(ns, nodeName);
  }

  /** A space-free namespace and node name give a space-free file name. */
  lemma ParamsFileNameIsWord(ns: string, nodeName: string)
    requires |ns| > 0 && Word(ns) && Word(nodeName)
    ensures Word(ParamsFileName(ns, nodeName))
  {
    var joined := StripLeadingSlash(ns) + "/" + nodeName + Extension;
    if ' ' in ParamsFileName(ns, nodeName) {
      ReplaceChars(joined, '/', "__", ' ');
    }
  }

  /** "/a/b" and "a/b" with node "c" both name "a__b__c.yaml". */
  lemma NestedNamespaceExample()
    ensures ParamsFileName("/a/b", "c") == "a__b__c.yaml"
    ensures ParamsFileName("a/b", "c") == "a__b__c.yaml"
  {
    NestedText();
    OneLeadingSlashRemoved("a/b", "c");
    LeadingSlashOptional("a/b", "c");
    FlattenNested();
  }

  lemma NestedText()
    ensures "/" + "a/b" == "/a/b"
    ensures Flatten("c") == "c"
    ensures "a__b" + "__" + "c" + Extension == "a__b__c.yaml"
  {
  }

  lemma FlattenNested()
    ensures Flatten("a/b") == "a__b"
  {
    ReplaceAppend("a", "/b", '/', "__");
    assert "a" + "/b" == "a/b";
    assert Flatten("/b") == "__b" by {
      assert "/b"[1..] == "b";
    }
  }

  /** A second leading slash is kept, so it becomes a leading "__". */
  lemma DoubleSlashExample()
    ensures ParamsFileName("//a", "b") == "__a__b.yaml"
  {
    DoubleSlashText();
    OneLeadingSlashRemoved("/a", "b");
    assert Flatten("/a") == "__a" by {
      assert "/a"[1..] == "a";
    }
  }

  lemma DoubleSlashText()
    ensures "/" + "/a" == "//a"
    ensures Flatten("b") == "b"
    ensures "__a" + "__" + "b" + Extension == "__a__b.yaml"
  {
  }

  // ---------------------------------------------------------------------------
  // Log directory

  /** Python's `p[:-len(".yaml")]`: the extension's length dropped from the
      end, or nothing when `p` is shorter than that. */
  function DropExtension(p: string): string
  {
    if |Extension| <= |p| then p[..|p| - |Extension|] else []
  }

  /** The log directory: the formatted timestamp, then the parameter-file name
      without its extension. */
  function LogDirName(stamp: string, paramsFile: string): (r: string)
    ensures StartsWith(r, stamp)
    ensures EndsWith(paramsFile, Extension) ==> r + Extension == stamp + paramsFile
    ensures |paramsFile| < |Extension| ==> r == stamp
  {
    assert EndsWith(paramsFile, Extension) ==>
      paramsFile[..|paramsFile| - |Extension|] + Extension == paramsFile;
    stamp + DropExtension(paramsFile)
  }

  /** For a generated file name the log directory is the timestamp followed by
      exactly the "namespace__node" stem. */
  lemma LogDirStem(stamp: string, ns: string, nodeName: string)
    requires |ns| > 0
    ensures LogDirName(stamp, ParamsFileName(ns, nodeName))
         == stamp + Flatten(StripLeadingSlash(ns)) + "__" + Flatten(nodeName)
  {
    ParamsFileNameShape(ns, nodeName);
    var stem := Flatten(StripLeadingSlash(ns)) + "__" + Flatten(nodeName);
    assert (stem + Extension)[..|stem|] == stem;
  }

  // ---------------------------------------------------------------------------
  // Bag-record command

  const RecordBase: string := "ros2 bag record /tf /tf_static"

  const RecordBaseWords: seq<string> := ["ros2", "bag", "record", "/tf", "/tf_static"]

  /** " <topic>" for each subscription, in order; the types are not used. */
  function TopicArgs(info: seq<Subscription>): string
  {
    if info == [] then []
    else TopicArgs(info[..|info| - 1]) + " " + info[|info| - 1].0
  }

  function RecordCommand(info: seq<Subscription>): string
  {
    RecordBase + TopicArgs(info)
  }

  /** The subscribed topics, in order. */
  function Topics(info: seq<Subscription>): (ts: seq<string>)
    ensures |ts| == |info|
    ensures forall i :: 0 <= i < |info| ==> ts[i] == info[i].0
  {
    seq(|info|, i requires 0 <= i < |info| => info[i].0)
  }

  /** The loop of `main` that builds the record command. */
  method BuildRecordCommand(info: seq<Subscription>) returns (cmd: string)
    ensures cmd == RecordCommand(info)
    ensures StartsWith(cmd, RecordBase)
  {
    cmd := RecordBase;
    for i := 0 to |info|
      invariant cmd == RecordBase + TopicArgs(info[..i])
    {
      var (topic, _) := info[i];
      assert info[..i + 1][..i] == info[..i];
      cmd := cmd + " " + topic;
    }
    assert info[..|info|] == info;
  }

  /** The command only depends on the topics, never on the types. */
  lemma {:induction false} RecordIgnoresTypes(a: seq<Subscription>, b: seq<Subscription>)
    requires Topics(a) == Topics(b)
    ensures TopicArgs(a) == TopicArgs(b)
    ensures RecordCommand(a) == RecordCommand(b)
  {
    assert |a| == |Topics(a)| == |b|;
    if a != [] {
      var n := |a| - 1;
      assert a[n].0 == Topics(a)[n] == Topics(b)[n] == b[n].0;
      assert Topics(a[..n]) == Topics(a)[..n] == Topics(b)[..n] == Topics(b[..n]);
      RecordIgnoresTypes(a[..n], b[..n]);
    }
  }

  /** Appending subscriptions appends their topic arguments. */
  lemma {:induction false} TopicArgsAppend(a: seq<Subscription>, b: seq<Subscription>)
    ensures TopicArgs(a + b) == TopicArgs(a) + TopicArgs(b)
  {
    if b == [] {
      assert a + b == a;
    } else {
      var n := |b| - 1;
      var ab := a + b;
      assert ab[..|ab| - 1] == a + b[..n];
      assert ab[|ab| - 1] == b[n];
      assert TopicArgs(ab) == TopicArgs(a + b[..n]) + " " + b[n].0;
      TopicArgsAppend(a, b[..n]);
      assert TopicArgs(b) == TopicArgs(b[..n]) + " " + b[n].0;
    }
  }

  /** Appending subscriptions extends the record command at its end. */
  lemma RecordCommandExtends(a: seq<Subscription>, b: seq<Subscription>)
    ensures RecordCommand(a + b) == RecordCommand(a) + TopicArgs(b)
  {
    TopicArgsAppend(a, b);
  }

  /** The fixed part of the record command splits into its five words. */
  lemma RecordBaseArguments()
    ensures Split(RecordBase, ' ') == RecordBaseWords
  {
    RecordBaseText();
    SplitFiveWords("ros2", "bag", "record", "/tf", "/tf_static");
  }

  lemma SplitFiveWords(a: string, b: string, c: string, d: string, e: string)
    requires Word(a) && Word(b) && Word(c) && Word(d) && Word(e)
    ensures Split(a + " " + b + " " + c + " " + d + " " + e, ' ') == [a, b, c, d, e]
  {
    SplitBeforeRun(a, b, ' ');
    assert Split(a + " " + b, ' ') == [a, b];
    SplitBeforeRun(a + " " + b, c, ' ');
    assert Split(a + " " + b + " " + c, ' ') == [a, b, c];
    SplitBeforeRun(a + " " + b + " " + c, d, ' ');
    assert Split(a + " " + b + " " + c + " " + d, ' ') == [a, b, c, d];
    SplitBeforeRun(a + " " + b + " " + c + " " + d, e, ' ');
  }

  lemma RecordBaseText()
    ensures RecordBase == "ros2" + " " + "bag" + " " + "record" + " " + "/tf" + " " + "/tf_static"
  {
  }

  /** Space-free topics add exactly one word each to whatever precedes them. */
  lemma {:induction false} SplitTopicArgs(head: string, info: seq<Subscription>)
    requires forall i :: 0 <= i < |info| ==> Word(info[i].0)
    ensures Split(head + TopicArgs(info), ' ') == Split(head, ' ') + Topics(info)
  {
    if info == [] {
      assert head + TopicArgs(info) == head;
    } else {
      var n := |info| - 1;
      var front := head + TopicArgs(info[..n]);
      SplitTopicArgs(head, info[..n]);
      assert TopicArgs(info) == TopicArgs(info[..n]) + " " + info[n].0;
      assert head + TopicArgs(info) == front + " " + info[n].0;
      SplitBeforeRun(front, info[n].0, ' ');
      TopicsSnoc(info);
    }
  }

  lemma TopicsSnoc(info: seq<Subscription>)
    requires |info| > 0
    ensures Topics(info) == Topics(info[..|info| - 1]) + [info[|info| - 1].0]
  {
  }

  /** Each subscription adds its topic as one more word joined with a space. */
  lemma {:induction false} JoinTopicArgs(ws: seq<string>, info: seq<Subscription>)
    requires |ws| >= 1
    ensures Join(ws + Topics(info), " ") == Join(ws, " ") + TopicArgs(info)
  {
    if info == [] {
      assert ws + Topics(info) == ws;
    } else {
      var n := |info| - 1;
      JoinTopicArgs(ws, info[..n]);
      TopicsSnoc(info);
      assert ws + Topics(info) == (ws + Topics(info[..n])) + [info[n].0];
      JoinSnoc(ws + Topics(info[..n]), info[n].0, " ");
      assert TopicArgs(info) == TopicArgs(info[..n]) + " " + info[n].0;
    }
  }

  /** For every subscription list, the record command is its five fixed words
      and its topics, in list order, joined with single spaces. */
  lemma RecordCommandIsJoin(info: seq<Subscription>)
    ensures RecordCommand(info) == Join(RecordBaseWords + Topics(info), " ")
  {
    RecordBaseArguments();
    JoinSplit(RecordBase, ' ');
    JoinTopicArgs(RecordBaseWords, info);
  }

  /** When no topic contains a space, cutting the record command at each
      space gives the five fixed words and then exactly one piece per
      subscription: its topic, in list order. */
  lemma RecordArguments(info: seq<Subscription>)
    requires forall i :: 0 <= i < |info| ==> Word(info[i].0)
    ensures Split(RecordCommand(info), ' ') == RecordBaseWords + Topics(info)
    ensures Join(RecordBaseWords + Topics(info), " ") == RecordCommand(info)
  {
    RecordBaseArguments();
    SplitTopicArgs(RecordBase, info);
    RecordCommandIsJoin(info);
  }

  // ---------------------------------------------------------------------------
  // Launch command

  /** The fixed part of the launch command, up to the node-name override. */
  function LaunchBase(pkg: string, exe: string, paramsFile: string, ns: string, nodeName: string): string
  {
    "ros2 run " + pkg + " " + exe + " --ros-args --params-file " + paramsFile
      + " -r __ns:=" + ns + " -r __node:=" + nodeName
  }

  function LaunchBaseWords(pkg: string, exe: string, paramsFile: string, ns: string, nodeName: string): seq<string>
  {
    ["ros2", "run", pkg, exe, "--ros-args", "--params-file", paramsFile,
     "-r", "__ns:=" + ns, "-r", "__node:=" + nodeName]
  }

  /** The override argument for one remapping. */
  function RemapArg(m: Remapping): string { m.0 + ":=" + m.1 }

  /** " -r k:=v" for each remapping, in order. */
  function RemapFlags(ms: seq<Remapping>): string
  {
    if ms == [] then []
    else RemapFlags(ms[..|ms| - 1]) + " -r " + RemapArg(ms[|ms| - 1])
  }

  function LaunchCommand(pkg: string, exe: string, paramsFile: string, ns: string, nodeName: string,
                         ms: seq<Remapping>): string
  {
    LaunchBase(pkg, exe, paramsFile, ns, nodeName) + RemapFlags(ms)
  }

  /** The arguments the remappings contribute: "-r" and "k:=v" for each, in order. */
  function RemapWords(ms: seq<Remapping>): (ws: seq<string>)
    ensures |ws| == 2 * |ms|
    ensures forall i :: 0 <= i < |ms| ==> ws[2 * i] == "-r" && ws[2 * i + 1] == RemapArg(ms[i])
  {
    if ms == [] then []
    else RemapWords(ms[..|ms| - 1]) + ["-r", RemapArg(ms[|ms| - 1])]
  }

  /** The loop of `main` that builds the launch command. */
  method BuildLaunchCommand(pkg: string, exe: string, paramsFile: string, ns: string, nodeName: string,
                            ms: seq<Remapping>) returns (cmd: string)
    ensures cmd == LaunchCommand(pkg, exe, paramsFile, ns, nodeName, ms)
    ensures StartsWith(cmd, LaunchBase(pkg, exe, paramsFile, ns, nodeName))
  {
    cmd := "ros2 run " + pkg + " " + exe + " --ros-args --params-file " + paramsFile
      + " -r __ns:=" + ns + " -r __node:=" + nodeName;
    for i := 0 to |ms|
      invariant cmd == LaunchBase(pkg, exe, paramsFile, ns, nodeName) + RemapFlags(ms[..i])
    {
      var (k, v) := ms[i];
      assert ms[..i + 1][..i] == ms[..i];
      cmd := cmd + " -r " + k + ":=" + v;
    }
    assert ms[..|ms|] == ms;
  }

  /** Without remappings the command is exactly its fixed part. */
  lemma LaunchWithoutRemaps(pkg: string, exe: string, paramsFile: string, ns: string, nodeName: string)
    ensures LaunchCommand(pkg, exe, paramsFile, ns, nodeName, [])
         == LaunchBase(pkg, exe, paramsFile, ns, nodeName)
  {
  }

  /** Appending remappings appends their flags; in particular each remapping
      adds one " -r k:=v" segment at the end. */
  lemma {:induction false} RemapFlagsAppend(a: seq<Remapping>, b: seq<Remapping>)
    ensures RemapFlags(a + b) == RemapFlags(a) + RemapFlags(b)
  {
    if b == [] {
      assert a + b == a;
    } else {
      var n := |b| - 1;
      var ab := a + b;
      assert ab[..|ab| - 1] == a + b[..n];
      assert ab[|ab| - 1] == b[n];
      assert RemapFlags(ab) == RemapFlags(a + b[..n]) + " -r " + RemapArg(b[n]);
      RemapFlagsAppend(a, b[..n]);
      assert RemapFlags(b) == RemapFlags(b[..n]) + " -r " + RemapArg(b[n]);
    }
  }

  /** Appending remappings extends the launch command at its end, after
      everything the earlier remappings produced. */
  lemma LaunchCommandExtends(pkg: string, exe: string, paramsFile: string, ns: string, nodeName: string,
                             a: seq<Remapping>, b: seq<Remapping>)
    ensures LaunchCommand(pkg, exe, paramsFile, ns, nodeName, a + b)
         == LaunchCommand(pkg, exe, paramsFile, ns, nodeName, a) + RemapFlags(b)
  {
    RemapFlagsAppend(a, b);
  }

  /** The first remapping's segment comes first, right after the fixed part. */
  lemma RemapFlagsCons(m: Remapping, ms: seq<Remapping>)
    ensures RemapFlags([m] + ms) == " -r " + RemapArg(m) + RemapFlags(ms)
  {
    RemapFlagsAppend([m], ms);
    assert [m][..0] == [];
  }

  // Splitting the fixed part, one stretch of literal text at a time. Each
  // "Text" lemma cuts a literal of the command into its words and spaces.

  lemma LaunchHeadText(pkg: string, exe: string)
    ensures "ros2 run " + pkg + " " + exe == "ros2" + " " + "run" + " " + pkg + " " + exe
  {
  }

  lemma ParamsFlagText(head: string, paramsFile: string)
    ensures head + " --ros-args --params-file " + paramsFile
         == head + " " + "--ros-args" + " " + "--params-file" + " " + paramsFile
  {
  }

  lemma OverrideText(head: string, arg: string)
    ensures head + " -r " + arg == head + " " + "-r" + " " + arg
  {
  }

  lemma NamespaceText(head: string, ns: string)
    ensures head + " -r __ns:=" + ns == head + " -r " + ("__ns:=" + ns)
  {
  }

  lemma NodeText(head: string, nodeName: string)
    ensures head + " -r __node:=" + nodeName == head + " -r " + ("__node:=" + nodeName)
  {
  }

  lemma SplitLaunchHead(pkg: string, exe: string)
    requires Word(pkg) && Word(exe)
    ensures Split("ros2 run " + pkg + " " + exe, ' ') == ["ros2", "run", pkg, exe]
  {
    var s1 := "ros2" + " " + "run";
    var s2 := s1 + " " + pkg;
    LaunchHeadText(pkg, exe);
    SplitBeforeRun("ros2", "run", ' ');
    assert Split(s1, ' ') == ["ros2", "run"];
    SplitBeforeRun(s1, pkg, ' ');
    assert Split(s2, ' ') == ["ros2", "run", pkg];
    SplitBeforeRun(s2, exe, ' ');
  }

  lemma SplitParamsFlag(head: string, paramsFile: string)
    requires Word(paramsFile)
    ensures Split(head + " --ros-args --params-file " + paramsFile, ' ')
         == Split(head, ' ') + ["--ros-args", "--params-file", paramsFile]
  {
    var s1 := head + " " + "--ros-args";
    var s2 := s1 + " " + "--params-file";
    ParamsFlagText(head, paramsFile);
    SplitBeforeRun(head, "--ros-args", ' ');
    SplitBeforeRun(s1, "--params-file", ' ');
    assert Split(s2, ' ') == Split(head, ' ') + ["--ros-args", "--params-file"];
    SplitBeforeRun(s2, paramsFile, ' ');
  }

  lemma SplitOverride(head: string, arg: string)
    requires Word(arg)
    ensures Split(head + " -r " + arg, ' ') == Split(head, ' ') + ["-r", arg]
  {
    OverrideText(head, arg);
    SplitBeforeRun(head, "-r", ' ');
    SplitBeforeRun(head + " " + "-r", arg, ' ');
  }

  lemma SplitOverrideAfter(head: string, mid: string, arg: string)
    requires Word(arg)
    ensures Split(head + (mid + " -r " + arg), ' ') == Split(head + mid, ' ') + ["-r", arg]
  {
    assert head + (mid + " -r " + arg) == (head + mid) + " -r " + arg;
    SplitOverride(head + mid, arg);
  }

  /** The fixed part of the launch command splits into its eleven words. */
  lemma LaunchBaseArguments(pkg: string, exe: string, paramsFile: string, ns: string, nodeName: string)
    requires Word(pkg) && Word(exe) && Word(paramsFile) && Word(ns) && Word(nodeName)
    ensures Split(LaunchBase(pkg, exe, paramsFile, ns, nodeName), ' ')
         == LaunchBaseWords(pkg, exe, paramsFile, ns, nodeName)
  {
    var head := "ros2 run " + pkg + " " + exe;
    var withParams := head + " --ros-args --params-file " + paramsFile;
    var withNs := withParams + " -r __ns:=" + ns;
    SplitLaunchHead(pkg, exe);
    SplitParamsFlag(head, paramsFile);
    NamespaceText(withParams, ns);
    SplitOverride(withParams, "__ns:=" + ns);
    NodeText(withNs, nodeName);
    SplitOverride(withNs, "__node:=" + nodeName);
  }

  /** Space-free remappings add exactly their "-r", "k:=v" words to whatever
      precedes them. */
  lemma {:induction false} SplitRemapFlags(head: string, ms: seq<Remapping>)
    requires forall i :: 0 <= i < |ms| ==> Word(ms[i].0) && Word(ms[i].1)
    ensures Split(head + RemapFlags(ms), ' ') == Split(head, ' ') + RemapWords(ms)
  {
    if ms == [] {
      assert head + RemapFlags(ms) == head;
    } else {
      SplitRemapFlags(head, ms[..|ms| - 1]);
      ArgIsWord(ms[|ms| - 1]);
      SplitRemapStep(head, ms);
    }
  }

  /** The inductive step of SplitRemapFlags: the last remapping's two words. */
  lemma SplitRemapStep(head: string, ms: seq<Remapping>)
    requires |ms| > 0 && Word(RemapArg(ms[|ms| - 1]))
    requires Split(head + RemapFlags(ms[..|ms| - 1]), ' ') == Split(head, ' ') + RemapWords(ms[..|ms| - 1])
    ensures Split(head + RemapFlags(ms), ' ') == Split(head, ' ') + RemapWords(ms)
  {
    var n := |ms| - 1;
    var arg := RemapArg(ms[n]);
    assert RemapFlags(ms) == RemapFlags(ms[..n]) + " -r " + arg;
    SplitOverrideAfter(head, RemapFlags(ms[..n]), arg);
    assert RemapWords(ms) == RemapWords(ms[..n]) + ["-r", arg];
  }

  /** When no component contains a space, cutting the launch line at each
      space gives the eleven fixed words and then exactly one "-r", "k:=v"
      pair per remapping, in enumeration order. */
  lemma LaunchArguments(pkg: string, exe: string, paramsFile: string, ns: string, nodeName: string,
                        ms: seq<Remapping>)
    requires Word(pkg) && Word(exe) && Word(paramsFile) && Word(ns) && Word(nodeName)
    requires forall i :: 0 <= i < |ms| ==> Word(ms[i].0) && Word(ms[i].1)
    ensures Split(LaunchCommand(pkg, exe, paramsFile, ns, nodeName, ms), ' ')
         == LaunchBaseWords(pkg, exe, paramsFile, ns, nodeName) + RemapWords(ms)
    ensures Join(LaunchBaseWords(pkg, exe, paramsFile, ns, nodeName) + RemapWords(ms), " ")
         == LaunchCommand(pkg, exe, paramsFile, ns, nodeName, ms)
  {
    LaunchBaseArguments(pkg, exe, paramsFile, ns, nodeName);
    SplitRemapFlags(LaunchBase(pkg, exe, paramsFile, ns, nodeName), ms);
    LaunchCommandIsJoin(pkg, exe, paramsFile, ns, nodeName, ms);
  }

  /** One more "-r", arg pair of words adds " -r " and arg when joined. */
  lemma JoinOverride(ws: seq<string>, arg: string)
    requires |ws| >= 1
    ensures Join(ws + ["-r", arg], " ") == Join(ws, " ") + " -r " + arg
  {
    JoinSnoc(ws, "-r", " ");
    JoinSnoc(ws + ["-r"], arg, " ");
    assert ws + ["-r", arg] == ws + ["-r"] + [arg];
    OverrideText(Join(ws, " "), arg);
  }

  /** Each remapping adds its "-r", "k:=v" words, joined with spaces. */
  lemma {:induction false} JoinRemapFlags(ws: seq<string>, ms: seq<Remapping>)
    requires |ws| >= 1
    ensures Join(ws + RemapWords(ms), " ") == Join(ws, " ") + RemapFlags(ms)
  {
    if ms == [] {
      assert ws + RemapWords(ms) == ws;
    } else {
      var n := |ms| - 1;
      var arg := RemapArg(ms[n]);
      JoinRemapFlags(ws, ms[..n]);
      assert RemapWords(ms) == RemapWords(ms[..n]) + ["-r", arg];
      assert ws + RemapWords(ms) == (ws + RemapWords(ms[..n])) + ["-r", arg];
      JoinOverride(ws + RemapWords(ms[..n]), arg);
      assert RemapFlags(ms) == RemapFlags(ms[..n]) + " -r " + arg;
    }
  }

  /** The fixed words of the launch line, joined with spaces, are its fixed part. */
  lemma JoinLaunchBase(pkg: string, exe: string, paramsFile: string, ns: string, nodeName: string)
    ensures Join(LaunchBaseWords(pkg, exe, paramsFile, ns, nodeName), " ")
         == LaunchBase(pkg, exe, paramsFile, ns, nodeName)
  {
    var w1: seq<string> := ["ros2"];
    var w2 := w1 + ["run"];
    var w3 := w2 + [pkg];
    var w4 := w3 + [exe];
    var head := "ros2 run " + pkg + " " + exe;
    JoinSnoc(w1, "run", " ");
    JoinSnoc(w2, pkg, " ");
    JoinSnoc(w3, exe, " ");
    LaunchHeadText(pkg, exe);
    assert Join(w4, " ") == head;
    var w5 := w4 + ["--ros-args"];
    var w6 := w5 + ["--params-file"];
    var w7 := w6 + [paramsFile];
    JoinSnoc(w4, "--ros-args", " ");
    JoinSnoc(w5, "--params-file", " ");
    JoinSnoc(w6, paramsFile, " ");
    ParamsFlagText(head, paramsFile);
    var withParams := head + " --ros-args --params-file " + paramsFile;
    assert Join(w7, " ") == withParams;
    JoinOverride(w7, "__ns:=" + ns);
    NamespaceText(withParams, ns);
    var withNs := withParams + " -r __ns:=" + ns;
    JoinOverride(w7 + ["-r", "__ns:=" + ns], "__node:=" + nodeName);
    NodeText(withNs, nodeName);
    assert LaunchBaseWords(pkg, exe, paramsFile, ns, nodeName)
        == w7 + ["-r", "__ns:=" + ns] + ["-r", "__node:=" + nodeName];
  }

  /** For all components, spaces or not, the launch line is its eleven fixed
      words and one "-r", "k:=v" pair per remapping, joined with single spaces. */
  lemma LaunchCommandIsJoin(pkg: string, exe: string, paramsFile: string, ns: string, nodeName: string,
                            ms: seq<Remapping>)
    ensures LaunchCommand(pkg, exe, paramsFile, ns, nodeName, ms)
         == Join(LaunchBaseWords(pkg, exe, paramsFile, ns, nodeName) + RemapWords(ms), " ")
  {
    JoinLaunchBase(pkg, exe, paramsFile, ns, nodeName);
    JoinRemapFlags(LaunchBaseWords(pkg, exe, paramsFile, ns, nodeName), ms);
  }

  /** A remapping of space-free names gives a space-free override argument. */
  lemma ArgIsWord(m: Remapping)
    requires Word(m.0) && Word(m.1)
    ensures Word(RemapArg(m))
  {
  }

  // ---------------------------------------------------------------------------
  // What main derives from one node identity

  /** The strings `main` produces; the I/O that uses them is not modelled. */
  datatype Artifacts = Artifacts(
    paramsFile: string,     // file the parameters are dumped to
    logDir: string,         // output directory, relative to "output"
    dumpCommand: string,    // the `ros2 param dump` shell command
    recordCommand: string,  // the `ros2 bag record` shell command
    scriptName: string,     // the launch script's file name
    launchCommand: string)  // the launch script's single line

  function DumpCommand(ns: string, nodeName: string, paramsFile: string): string
  {
    "ros2 param dump " + ns + "/" + nodeName + " > " + paramsFile
  }

  function ScriptName(pkg: string, exe: string): string
  {
    "ros2_run_" + pkg + "_" + exe
  }

  /** The launch script's name does not determine the package: an underscore
      may belong to either part. */
  lemma ScriptNameAmbiguous()
    ensures ScriptName("a_b", "c") == ScriptName("a", "b_c")
  {
  }

  /** The string synthesis of `main`, in its order: file name, log directory,
      dump command, record command, launch command. */
  method PlanReplay(nodeName: string, ns: string, pkg: string, exe: string,
                    ms: seq<Remapping>, info: seq<Subscription>, stamp: string)
    returns (a: Artifacts)
    requires |ns| > 0
    ensures a.paramsFile == ParamsFileName(ns, nodeName)
    ensures a.logDir == LogDirName(stamp, a.paramsFile)
    ensures a.dumpCommand == DumpCommand(ns, nodeName, a.paramsFile)
    ensures a.recordCommand == RecordCommand(info)
    ensures a.scriptName == ScriptName(pkg, exe)
    ensures a.launchCommand == LaunchCommand(pkg, exe, a.paramsFile, ns, nodeName, ms)
  {
    var paramsFile := ParamsFileName(ns, nodeName);
    var logDir := LogDirName(stamp, paramsFile);
    var dump := "ros2 param dump " + ns + "/" + nodeName + " > " + paramsFile;
    var record := BuildRecordCommand(info);
    var launch := BuildLaunchCommand(pkg, exe, paramsFile, ns, nodeName, ms);
    a := Artifacts(paramsFile, logDir, dump, record, "ros2_run_" + pkg + "_" + exe, launch);
  }

  lemma DumpText(target: string, paramsFile: string)
    ensures "ros2 param dump " + target + " > " + paramsFile
         == "ros2" + " " + "param" + " " + "dump" + " " + target + " " + ">" + " " + paramsFile
  {
  }

  lemma SplitSixWords(a: string, b: string, c: string, d: string, e: string, f: string)
    requires Word(a) && Word(b) && Word(c) && Word(d) && Word(e) && Word(f)
    ensures Split(a + " " + b + " " + c + " " + d + " " + e + " " + f, ' ') == [a, b, c, d, e, f]
  {
    SplitFiveWords(a, b, c, d, e);
    SplitBeforeRun(a + " " + b + " " + c + " " + d + " " + e, f, ' ');
  }

  /** When the namespace, node name and file name are space-free, cutting the
      dump command at each space gives the six pieces "ros2", "param", "dump",
      "<ns>/<node>", ">" and the file name. */
  lemma DumpArguments(ns: string, nodeName: string, paramsFile: string)
    requires Word(ns) && Word(nodeName) && Word(paramsFile)
    ensures Split(DumpCommand(ns, nodeName, paramsFile), ' ')
         == ["ros2", "param", "dump", ns + "/" + nodeName, ">", paramsFile]
  {
    var target := ns + "/" + nodeName;
    assert DumpCommand(ns, nodeName, paramsFile) == "ros2 param dump " + target + " > " + paramsFile;
    DumpText(target, paramsFile);
    SplitSixWords("ros2", "param", "dump", target, ">", paramsFile);
  }

  /** The dump and the launch script agree on the node's identity: the file
      the dump is redirected to is the one passed after --params-file, and the
      namespace and name overrides are the ones dumped from. */
  lemma ConsistentIdentity(nodeName: string, ns: string, pkg: string, exe: string,
                           ms: seq<Remapping>)
    requires |ns| > 0 && Word(ns) && Word(nodeName) && Word(pkg) && Word(exe)
    requires forall i :: 0 <= i < |ms| ==> Word(ms[i].0) && Word(ms[i].1)
    ensures var f := ParamsFileName(ns, nodeName);
            var dump := Split(DumpCommand(ns, nodeName, f), ' ');
            var launch := Split(LaunchCommand(pkg, exe, f, ns, nodeName, ms), ' ');
            |dump| == 6 && |launch| >= 11
            && dump[5] == launch[6] == f
            && dump[3] == ns + "/" + nodeName
            && launch[8] == "__ns:=" + ns && launch[10] == "__node:=" + nodeName
  {
    var f := ParamsFileName(ns, nodeName);
    ParamsFileNameIsWord(ns, nodeName);
    DumpArguments(ns, nodeName, f);
    LaunchArguments(pkg, exe, f, ns, nodeName, ms);
    LaunchWordsAt(pkg, exe, f, ns, nodeName, RemapWords(ms));
  }

  lemma LaunchWordsAt(pkg: string, exe: string, paramsFile: string, ns: string, nodeName: string,
                      rest: seq<string>)
    ensures var w := LaunchBaseWords(pkg, exe, paramsFile, ns, nodeName) + rest;
            |w| >= 11 && w[6] == paramsFile && w[8] == "__ns:=" + ns && w[10] == "__node:=" + nodeName
  {
  }

  /** The end-to-end scenario: node "controller" in namespace "/robot" of
      package "pkg", executable "exec", without remappings. */
  lemma ControllerExample()
    ensures ParamsFileName("/robot", "controller") == "robot__controller.yaml"
    ensures LaunchCommand("pkg", "exec", "robot__controller.yaml", "/robot", "controller", [])
         == "ros2 run pkg exec --ros-args --params-file robot__controller.yaml -r __ns:=/robot -r __node:=controller"
  {
    ControllerParamsFile();
    LaunchWithoutRemaps("pkg", "exec", "robot__controller.yaml", "/robot", "controller");
    ControllerLaunchText();
  }

  lemma ControllerParamsFile()
    ensures ParamsFileName("/robot", "controller") == "robot__controller.yaml"
  {
    ControllerNamespaceText();
    OneLeadingSlashRemoved("robot", "controller");
    ControllerFlatten();
    ControllerFileText();
  }

  lemma ControllerNamespaceText()
    ensures "/" + "robot" == "/robot"
  {
  }

  lemma ControllerFlatten()
    ensures Flatten("robot") == "robot" && Flatten("controller") == "controller"
  {
    assert '/' !in "robot";
    assert '/' !in "controller";
  }

  lemma ControllerFileText()
    ensures "robot" + "__" + "controller" + Extension == "robot__controller.yaml"
  {
    assert "robot" + "__" == "robot__";
    assert "robot__" + "controller" == "robot__controller";
  }

  lemma ControllerLaunchText()
    ensures LaunchBase("pkg", "exec", "robot__controller.yaml", "/robot", "controller")
         == "ros2 run pkg exec --ros-args --params-file robot__controller.yaml -r __ns:=/robot -r __node:=controller"
  {
    ControllerHeadText();
    ControllerFlagText();
    ControllerParamsText();
    ControllerNsText();
    ControllerNodeFlagText();
    ControllerNodeText();
  }

  lemma ControllerHeadText()
    ensures "ros2 run " + "pkg" + " " + "exec" == "ros2 run pkg exec"
  {
  }

  lemma ControllerFlagText()
    ensures "ros2 run pkg exec" + " --ros-args --params-file " == "ros2 run pkg exec --ros-args --params-file "
  {
  }

  lemma ControllerParamsText()
    ensures "ros2 run pkg exec --ros-args --params-file " + "robot__controller.yaml"
         == "ros2 run pkg exec --ros-args --params-file robot__controller.yaml"
  {
  }

  lemma ControllerNsText()
    ensures "ros2 run pkg exec --ros-args --params-file robot__controller.yaml" + " -r __ns:=" + "/robot"
         == "ros2 run pkg exec --ros-args --params-file robot__controller.yaml -r __ns:=/robot"
  {
  }

  lemma ControllerNodeFlagText()
    ensures "ros2 run pkg exec --ros-args --params-file robot__controller.yaml -r __ns:=/robot" + " -r __node:="
         == "ros2 run pkg exec --ros-args --params-file robot__controller.yaml -r __ns:=/robot -r __node:="
  {
  }

  lemma ControllerNodeText()
    ensures "ros2 run pkg exec --ros-args --params-file robot__controller.yaml -r __ns:=/robot -r __node:=" + "controller"
         == "ros2 run pkg exec --ros-args --params-file robot__controller.yaml -r __ns:=/robot -r __node:=controller"
  {
  }
}

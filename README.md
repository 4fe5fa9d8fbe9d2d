# Single-node recorder: string synthesis

`recorder.py` records the inputs of one ROS 2 node so that the node can be
replayed on its own later. Apart from its calls into the middleware, the
shell and the file system, all of its logic is string construction:

- the **parameter-file name** `get_params_file_name(ns, node_name)`: one
  leading `/` is removed from the namespace, then namespace and node name
  are joined with `/`, `.yaml` is appended, and every `/` becomes `__`;
- the **log directory** name: a formatted timestamp followed by the
  parameter-file name without its last five characters;
- the **bag-record command**: `ros2 bag record /tf /tf_static` followed by
  ` <topic>` for every `(topic, types)` entry of the node's subscriptions;
- the **launch command** written to the launch script:
  `ros2 run <pkg> <exe> --ros-args --params-file <file> -r __ns:=<ns> -r __node:=<node>`
  followed by ` -r <k>:=<v>` for every remapping, in enumeration order;
- the `ros2 param dump <ns>/<node> > <file>` command and the launch-script
  name `ros2_run_<pkg>_<exe>`, which `main` derives from the same identity.

`text.dfy` (module `Text`) models Python's `str.replace`, `str.split` and
`str.join` for a one-character pattern. `Replace` gets an independent
reference definition (split, then join). `Split` and `Join` are shown to
undo each other. `recorder.dfy` (module `Recorder`) models the recorder
itself:

- The two loops of `main` are methods with `for` loops. They are proved
  against recursive functions defined from the last element, so each
  function follows the order in which the loop extends its accumulator.
- `PlanReplay` generates all of `main`'s strings in `main`'s own order.
- Each command is also given a word-level reference: for every input, it is
  its words joined with single spaces (`RecordCommandIsJoin`,
  `LaunchCommandIsJoin`). The words are the fixed words, one `-r`, `k:=v`
  pair per remapping in order, and one word per topic, with the types never
  appearing.
- When no component contains a space, `Split(cmd, ' ')` (the pieces between
  single spaces) gives those words back. This is used to state that the dump
  command and the launch command name the same node and file. `Split` is only
  an approximation of how a shell reads the line; "## Left out" says where
  the two differ.

## Model

| member | source | states |
|---|---|---|
| Text.Replace | recorder.py:15 | a string without the pattern character is unchanged; if the replacement lacks it, the result lacks it |
| Text.ReplaceAppend | recorder.py:14-15 | replacing in a concatenation is the concatenation of the replaced parts |
| Text.ReplaceLength | recorder.py:15 | each occurrence of the pattern changes the length by the replacement's length minus one |
| Text.ReplaceChars | recorder.py:15 | every character of the result comes from the input or from the replacement |
| Text.ReplaceIsSplitJoin | recorder.py:15 | `s.replace(c, rep)` equals `rep.join(s.split(c))` for every string |
| Recorder.ParamsFileName | recorder.py:10-15 | defined only for a non-empty namespace, since line 12 indexes `ns[0]`; the name never contains `/` and always ends in `.yaml` |
| Recorder.ParamsFileNameShape | recorder.py:11-15 | the name is the flattened namespace with its leading slash stripped, then `__`, the flattened node name and `.yaml` |
| Recorder.OneLeadingSlashRemoved | recorder.py:12-13 | for a namespace `/` + rest, exactly one slash is removed and all of rest, including any further slash, is flattened |
| Recorder.LeadingSlashOptional | recorder.py:12-14 | a non-empty namespace without a leading slash names the same file as the same namespace with one |
| Recorder.ParamsFileNameIsWord | recorder.py:14-15 | a space-free namespace and node name give a space-free file name |
| Recorder.NestedNamespaceExample | recorder.py:10-15 | `"/a/b"` and `"a/b"` with node `"c"` both give `a__b__c.yaml` |
| Recorder.DoubleSlashExample | recorder.py:12-15 | `"//a"` with node `"b"` keeps a leading `__`: `__a__b.yaml` |
| Recorder.LogDirName | recorder.py:27 | the directory starts with the timestamp; for a name ending in `.yaml`, directory plus `.yaml` is timestamp plus name; a name shorter than five characters leaves only the timestamp |
| Recorder.LogDirStem | recorder.py:27 | for a generated file name the directory is the timestamp followed by exactly the `namespace__node` stem |
| Recorder.BuildRecordCommand | recorder.py:52-55 | the loop builds exactly the recursive record command, which starts with `ros2 bag record /tf /tf_static` |
| Recorder.RecordIgnoresTypes | recorder.py:53-55 | two subscription lists with the same topics give the same command, whatever their types |
| Recorder.TopicArgsAppend | recorder.py:53-55 | appending subscriptions appends their topic arguments |
| Recorder.RecordCommandExtends | recorder.py:52-55 | appending subscriptions extends the command at its end |
| Recorder.RecordBaseArguments | recorder.py:52 | cutting the fixed part at spaces gives the five pieces `ros2 bag record /tf /tf_static` |
| Recorder.JoinTopicArgs | recorder.py:53-55 | for every list, each subscription adds its topic as one more space-joined word, in order |
| Recorder.RecordCommandIsJoin | recorder.py:52-55 | for every subscription list, the command is the five fixed words followed by the topics in list order, joined with single spaces |
| Recorder.SplitTopicArgs | recorder.py:53-55 | space-free topics add exactly one space-separated piece each, in order, after whatever precedes them |
| Recorder.RecordArguments | recorder.py:52-55 | with space-free topics, cutting the command at spaces gives the five fixed words and then the topics in order, and joining those pieces gives the command back |
| Recorder.RemapWords | recorder.py:63-64 | two words per remapping: `-r` at position 2i and `k:=v` of the i-th remapping at 2i+1 |
| Recorder.BuildLaunchCommand | recorder.py:59-64 | the loop builds exactly the recursive launch command, which starts with the fixed part ending in `-r __node:=<node>` |
| Recorder.LaunchWithoutRemaps | recorder.py:59-61 | with no remappings the command is exactly its fixed part |
| Recorder.RemapFlagsAppend | recorder.py:63-64 | appending remappings appends their ` -r k:=v` segments |
| Recorder.LaunchCommandExtends | recorder.py:59-64 | appending remappings extends the launch command at its end |
| Recorder.RemapFlagsCons | recorder.py:63-64 | the first remapping's segment comes first |
| Recorder.LaunchBaseArguments | recorder.py:59-61 | with space-free components, cutting the fixed part at spaces gives the eleven pieces `ros2 run <pkg> <exe> --ros-args --params-file <file> -r __ns:=<ns> -r __node:=<node>` |
| Recorder.SplitRemapFlags | recorder.py:63-64 | space-free remappings add exactly the pieces `-r`, `k:=v` per entry, in order, after whatever precedes them |
| Recorder.JoinLaunchBase | recorder.py:59-61 | for all components, the eleven fixed words joined with single spaces are the fixed part of the launch line |
| Recorder.JoinRemapFlags | recorder.py:63-64 | for every remapping list, each entry adds the words `-r` and `k:=v`, space-joined, in order |
| Recorder.LaunchCommandIsJoin | recorder.py:59-64 | for all components, the launch line is the eleven fixed words, then one `-r`, `k:=v` pair per remapping in order, joined with single spaces |
| Recorder.LaunchArguments | recorder.py:59-64 | with space-free components, cutting the launch line at spaces gives the eleven fixed words, then one `-r`, `k:=v` pair per remapping in order; joining those pieces gives the line back |
| Recorder.DumpArguments | recorder.py:50 | with space-free components, cutting the dump command at spaces gives the six pieces `ros2`, `param`, `dump`, `<ns>/<node>`, `>`, `<file>` |
| Recorder.ScriptNameAmbiguous | recorder.py:58 | the script name does not determine the package: `("a_b", "c")` and `("a", "b_c")` name the same script |
| Recorder.PlanReplay | recorder.py:47-64 | `main`'s strings, in its order: the file name, the log directory, the dump command, the record command, the script name and the launch line |
| Recorder.ConsistentIdentity | recorder.py:50-61 | with space-free components, the piece after `>` in the dump command is the piece after `--params-file` in the launch line, the dump target is `<ns>/<node>`, and the overrides are `__ns:=<ns>` and `__node:=<node>` |
| Recorder.ControllerExample | recorder.py:59-61 | node `controller` in `/robot` gives `robot__controller.yaml` and, with no remappings, `ros2 run pkg exec --ros-args --params-file robot__controller.yaml -r __ns:=/robot -r __node:=controller` |

## Left out

- Middleware client calls (`rclpy.init`, `create_node`, the subscriber query, `destroy_node`, `shutdown`, lines 33-40 and 68-69) are foreign calls. The subscriber list is an input of the model.
- The five-second discovery wait (line 37) only affects timing.
- The `os.system` calls (lines 50 and 56) are not modelled. The model builds the command strings only.
- `Split` at single spaces is not the shell's parsing. A shell drops the empty piece that an empty component leaves, also splits at tabs and newlines, and treats `>` in the dump command as a redirection, so `ros2` there receives four arguments and the last piece names the output file. The model does not capture these differences.
- All file-system and working-directory effects (`prepare_output_dir`, lines 19-29; opening and writing files, lines 43-45, 58 and 66) are left out.
- `datetime.now().strftime(...)` (line 27) reads the clock. `LogDirName` takes the formatted timestamp, including its trailing `_`, as a parameter.
- Argument parsing and YAML loading (lines 73-80) are left out; the model takes the loaded values as parameters.
- `main` opens `remapping_file` as a path (line 43), but the entry point passes an already-loaded mapping (line 87). The model takes the remappings directly as an ordered sequence and does not reproduce this mismatch.
- Remapping order: Python dictionaries and YAML mappings enumerate in insertion order. The model takes that order as the order of the given sequence.
- An empty namespace makes line 12 raise `IndexError`. `ParamsFileName` models this as a precondition rather than as an error result, because the source has no error path to model.
- Post-processing of the dumped parameter file, which comments out lines containing `: []`, belongs to other versions of the script. `recorder.py` does not do it, so it is not modelled.
- RecordArguments, LaunchArguments, DumpArguments, ConsistentIdentity: the `Split` statements assume space-free components, since a space inside a name makes extra pieces. For names with spaces, RecordCommandIsJoin and LaunchCommandIsJoin still give the word-level form of each command.

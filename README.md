# qDup core, modelled in Dafny

qDup runs shell scripts on remote hosts in coordinated stages. A run is described in YAML and read by a small, line-oriented parser (`YamlParser`). A `RunConfigBuilder` collects the scripts, the roles and their hosts, host aliases, host expressions and per-role setup/run/cleanup script lists, and then builds the run configuration:

- one resolved host per reference;
- the `all` role;
- one `setup:<host>` and one `cleanup:<host>` wrapper script per host;
- the run scripts per host;
- a wait/signal validation of every stage.

Commands form a tree with successor links. `ForEach` iterates over the lines of its input, cycling back through its body. `RepeatUntilSignal` lets execution continue while a named signal has a positive count. Each command reports a `Result` verdict (`next` or `skip`) to its context.

The project has one module per component:

| file | module | what it holds |
|---|---|---|
| result.dfy | `CmdResult` | the verdict value and its two factories |
| context.dfy | `Contexts` | a recording context with a read-only signal namespace |
| cmd_graph.dfy | `CmdGraph` | the command tree, successor links, tail and skip target |
| for_each.dfy | `ForEachCmd` | the `ForEach` state machine and its loop-back wiring |
| repeat_until_signal.dfy | `RepeatUntil` | the signal gate |
| json_heap.dfy | `JsonHeap` | JSON nodes in an arena, so shared references behave as in Java |
| yaml_builder.dfy | `YamlBuilder` | the parser's `Builder` with its two parallel stacks |
| yaml_scan.dfy | `YamlScan` | hand-written scanners that replace the parser's regular expressions |
| yaml_parser.dfy | `Yaml` | the `YamlParser` class and its line loop |
| host.dfy | `Hosts` | `user@host[:port]` parsing and printing |
| config_types.dfy | `ConfigTypes` | script references, scripts, errors, the built configuration |
| host_resolution.dfy | `HostResolution` | resolving short names through aliases; host expressions as set algebra |
| stage_assembly.dfy | `StageAssembly` | per-host assembly of the setup, cleanup and run stages |
| stage_checks.dfy | `StageChecks` | the wait/signal validation of a stage |
| run_config_builder.dfy | `RunConfigs` | the `RunConfigBuilder` class |

`java_string.dfy` (`JavaString`) and `wrappers.dfy` (`Wrappers`) hold the string helpers and `Option`.

## How the model is built

Code that changes state step by step is a class whose methods have `modifies` frames. This covers the parser, its builder, the config builder, `ForEach`, the gate and the context.

Each loop is a `method` with invariants, proved equal to a function over the order it took. Java `HashMap`/`HashSet` iteration order is unknown, so those loops pick the next element by choice. A ghost out-parameter records the order taken, and the contract relates the result to a fold over it.

Unbounded loops and exceptions in the source are outcomes, not preconditions:

- `Hung`: a `pop` loop that can make no progress, or a `,` outside an inline structure.
- `Threw`: `peek` on an empty inline stack, a key made of a lone `"`, `Integer.parseInt` on a bad port, or a `null` host reached through a host expression.

## Model

Paths are relative to the repository root.

| member | source | states |
|---|---|---|
| CmdResult.NextOf | src/main/java/io/hyperfoil/tools/qdup/cmd/Result.java:25-27 | the verdict is `next` and carries the output |
| CmdResult.SkipOf | src/main/java/io/hyperfoil/tools/qdup/cmd/Result.java:29-31 | the verdict is `skip` and carries the output |
| CmdResult.FactoriesCoverAndSeparate | src/main/java/io/hyperfoil/tools/qdup/cmd/Result.java:9-31 | every result is one of the two factories' values; the factories never agree; each is injective in its output |
| CmdResult.Repeat | src/main/java/io/hyperfoil/tools/qdup/cmd/Result.java:25-31 | n copies of one verdict, and nothing else |
| CmdResult.RepeatAppend | src/main/java/io/hyperfoil/tools/qdup/cmd/Result.java:25-31 | one more report adds one more copy at the end |
| Contexts.SpyContext.Next | src/main/java/io/hyperfoil/tools/qdup/cmd/Context.java:14 | records exactly one `next` with the output |
| Contexts.SpyContext.Skip | src/main/java/io/hyperfoil/tools/qdup/cmd/Context.java:15 | records exactly one `skip` with the output |
| Contexts.SpyContext.constructor | src/main/java/io/hyperfoil/tools/qdup/cmd/Context.java:36 | no verdicts recorded; the coordinator's signal counts as given |
| Contexts.SpyContext.GetSignalCount | src/main/java/io/hyperfoil/tools/qdup/cmd/Context.java:36 | the coordinator count of a name, 0 for a name never signalled |
| CmdGraph.IndexIn | src/test/java/perf/qdup/cmd/impl/ForEachTest.java:57-72 | a found index holds the command; not found means the command is absent |
| CmdGraph.Graph.ForceNext | src/main/java/perf/qdup/cmd/impl/ForEach.java:64-65 | only the successor of the given command changes |
| CmdGraph.Graph.AppendChild | src/main/java/perf/qdup/cmd/impl/ForEach.java:63 | the child is appended to the parent's children and its parent is recorded |
| CmdGraph.ChildlessIsOwnTail | src/test/java/perf/qdup/cmd/impl/ForEachTest.java:113-118 | a command without children is its own tail |
| CmdGraph.SkipIsFollowingSibling | src/test/java/perf/qdup/cmd/impl/ForEachTest.java:57-72 | a command followed by a sibling skips to that sibling |
| CmdGraph.SkipOfLastChild | src/test/java/perf/qdup/cmd/impl/ForEachTest.java:155-187 | the last child of a looping command (for-each, repeat-until) skips back to it; the last child of any other command skips where its parent skips |
| CmdGraph.FirstIndex | src/test/java/perf/qdup/cmd/impl/ForEachTest.java:57-72 | the index found is the first occurrence |
| ForEachCmd.SplitRunInput | src/main/java/perf/qdup/cmd/impl/ForEach.java:30-40 | input without a newline gives no tokens; tokens hold no newline; trailing empty pieces are dropped |
| ForEachCmd.SplitRunInputLines | src/main/java/perf/qdup/cmd/impl/ForEach.java:35-36 | joining the tokens with newlines gives back the input when it does not end in a newline |
| ForEachCmd.SplitRunInputTrailingNewline | src/main/java/perf/qdup/cmd/impl/ForEach.java:35-36 | a trailing newline adds no empty token, and the join round-trips |
| ForEachCmd.NextAll | src/main/java/perf/qdup/cmd/impl/ForEach.java:42-48 | one `next` per token, in token order |
| ForEachCmd.NextAllAppend | src/main/java/perf/qdup/cmd/impl/ForEach.java:42-48 | one more token adds one more `next` at the end |
| ForEachCmd.ThenKeepsLoopWired | src/main/java/perf/qdup/cmd/impl/ForEach.java:61-67 | appending a command keeps the body flat and the cycle loop → body → loop closed |
| ForEachCmd.LoopVisitsBodyThenReturns | src/main/java/perf/qdup/cmd/impl/ForEach.java:61-67 | following successors from the loop visits the body in order and then returns to the loop |
| ForEachCmd.FollowAlongBody | src/main/java/perf/qdup/cmd/impl/ForEach.java:64-65 | successors step through the body one command at a time |
| ForEachCmd.FollowFrom | src/main/java/perf/qdup/cmd/impl/ForEach.java:64-65 | one more step follows one more successor link |
| ForEachCmd.ForEach.Named | src/main/java/perf/qdup/cmd/impl/ForEach.java:18-20 | a new node has no split, index -1 and an empty input |
| ForEachCmd.ForEach.constructor | src/main/java/perf/qdup/cmd/impl/ForEach.java:21-26 | the input argument is discarded: the stored input is empty |
| ForEachCmd.ForEach.Run | src/main/java/perf/qdup/cmd/impl/ForEach.java:29-53 | the first run splits and caches; later runs keep the cache; no tokens means no verdict and no change; otherwise the index advances by one and either binds the token and reports `next` with it, or reports `skip` with the run input |
| ForEachCmd.ForEach.Clone | src/main/java/perf/qdup/cmd/impl/ForEach.java:55-58 | same name and bindings, fresh iteration state |
| ForEachCmd.ForEach.Then | src/main/java/perf/qdup/cmd/impl/ForEach.java:61-67 | the child is appended; the old tail and the child are relinked; the loop wiring is preserved |
| ForEachCmd.ForEach.ToString | src/main/java/perf/qdup/cmd/impl/ForEach.java:69-72 | `for-each: ` followed by the name; the stored input is always empty |
| ForEachCmd.RunFreshLoop | src/main/java/perf/qdup/cmd/impl/ForEach.java:29-53 | over repeated runs: one `next` per token in order, then `skip` on every later run, because the index never resets; with no tokens, nothing |
| ForEachCmd.Reported | src/main/java/perf/qdup/cmd/impl/ForEach.java:42-51 | k runs report k verdicts: `next` with each token in order while tokens remain, then `skip` with the run input; with no tokens, none |
| ForEachCmd.ReportedStep | src/main/java/perf/qdup/cmd/impl/ForEach.java:44-51 | one more run adds `next` with the k-th token while k is below the token count, and `skip` after |
| RepeatUntil.Describe | src/main/java/io/hyperfoil/tools/qdup/cmd/impl/RepeatUntilSignal.java:37 | the text is the `repeat-until: ` prefix followed by the name |
| RepeatUntil.CountFor | src/main/java/io/hyperfoil/tools/qdup/cmd/impl/RepeatUntilSignal.java:24 | the coordinator's count of a resolved name; an unknown name counts 0 |
| RepeatUntil.GateVerdicts | src/main/java/io/hyperfoil/tools/qdup/cmd/impl/RepeatUntilSignal.java:17-30 | one or two verdicts per run |
| RepeatUntil.GateVerdictsMeaning | src/main/java/io/hyperfoil/tools/qdup/cmd/impl/RepeatUntilSignal.java:19-30 | two verdicts exactly when the name is empty or null, the first being `skip`; the last is `next` iff the count is positive; all carry the input |
| RepeatUntil.LogLine | src/main/java/io/hyperfoil/tools/qdup/cmd/impl/RepeatUntilSignal.java:39-47 | with a positive count, the description of the resolved name, or of the raw name if never resolved; otherwise empty |
| RepeatUntil.LogLineNonEmptyIffSignalled | src/main/java/io/hyperfoil/tools/qdup/cmd/impl/RepeatUntilSignal.java:39-47 | the log line is non-empty iff the last count was positive |
| RepeatUntil.DescribeInjective | src/main/java/io/hyperfoil/tools/qdup/cmd/impl/RepeatUntilSignal.java:37 | two gates print alike iff their names are equal |
| RepeatUntil.RepeatUntilSignal.constructor | src/main/java/io/hyperfoil/tools/qdup/cmd/impl/RepeatUntilSignal.java:8-14 | keeps the name; nothing resolved; amount -1 |
| RepeatUntil.RepeatUntilSignal.GetName | src/main/java/io/hyperfoil/tools/qdup/cmd/impl/RepeatUntilSignal.java:15 | the constructor's name |
| RepeatUntil.RepeatUntilSignal.Run | src/main/java/io/hyperfoil/tools/qdup/cmd/impl/RepeatUntilSignal.java:17-30 | resolves the name, reads the count without changing the signal map, and reports the gate's verdicts |
| RepeatUntil.RepeatUntilSignal.Copy | src/main/java/io/hyperfoil/tools/qdup/cmd/impl/RepeatUntilSignal.java:32-35 | same name; the resolved name is not carried over; amount -1, so the log line is empty |
| RepeatUntil.RepeatUntilSignal.ToString | src/main/java/io/hyperfoil/tools/qdup/cmd/impl/RepeatUntilSignal.java:37 | the description of the raw name |
| RepeatUntil.RepeatUntilSignal.GetLogOutput | src/main/java/io/hyperfoil/tools/qdup/cmd/impl/RepeatUntilSignal.java:39-47 | the log line; non-empty iff the last count was positive |
| RepeatUntil.RunWhileSignalled | src/main/java/io/hyperfoil/tools/qdup/cmd/impl/RepeatUntilSignal.java:17-30 | while signalled, n runs report n `next`s and leave the count as it was |
| JsonHeap.Alloc | src/main/java/perf/qdup/config/YamlParser.java:190 | a new empty node is added at the end; earlier nodes are unchanged; references stay closed |
| JsonHeap.Put | src/main/java/perf/qdup/config/YamlParser.java:427-428 | sets one key of one node; every other node is unchanged |
| JsonHeap.Append | src/main/java/perf/qdup/config/YamlParser.java:226 | adds the value at the next integer index of one node; every other node is unchanged |
| JsonHeap.AddKeyed | src/main/java/perf/qdup/config/YamlParser.java:223 | an absent key is set; a present key ends up holding a reference |
| JsonHeap.AddKeyedKeepsBoth | src/main/java/perf/qdup/config/YamlParser.java:223 | adding under a present key keeps the old value and the new one in an array |
| JsonHeap.IdxKeys | src/main/java/perf/qdup/config/YamlParser.java:542 | exactly the integer keys below n |
| JsonHeap.IdxKeysCard | src/main/java/perf/qdup/config/YamlParser.java:542 | there are n of them |
| JsonHeap.IdxKeysSnoc | src/main/java/perf/qdup/config/YamlParser.java:542 | one more element adds exactly the next integer key |
| YamlBuilder.Hits | src/main/java/perf/qdup/config/YamlParser.java:120-136 | the contexts holding the key, innermost first |
| YamlBuilder.HitsComplete | src/main/java/perf/qdup/config/YamlParser.java:120-136 | every context holding the key is a hit; no hits iff no context holds it |
| YamlBuilder.Builder.constructor | src/main/java/perf/qdup/config/YamlParser.java:44-47 | both stacks start empty |
| YamlBuilder.Builder.Reset | src/main/java/perf/qdup/config/YamlParser.java:48-52 | exactly one target, the given document, with one empty context |
| YamlBuilder.Builder.Push | src/main/java/perf/qdup/config/YamlParser.java:53-56 | pushes the target and an empty context together |
| YamlBuilder.Builder.Pop | src/main/java/perf/qdup/config/YamlParser.java:76-82 | pops both stacks, never the bottom entry |
| YamlBuilder.Builder.Set | src/main/java/perf/qdup/config/YamlParser.java:114-116 | sets the key in the innermost context only |
| YamlBuilder.Builder.Size | src/main/java/perf/qdup/config/YamlParser.java:83 | the depth |
| YamlBuilder.Builder.Target | src/main/java/perf/qdup/config/YamlParser.java:84 | the top target |
| YamlBuilder.Builder.PeekTarget | src/main/java/perf/qdup/config/YamlParser.java:85-91 | the n-th from the top, or the bottom when fewer exist; an amount of 0 or less throws |
| YamlBuilder.Builder.HasAt | src/main/java/perf/qdup/config/YamlParser.java:92-100 | true iff the depth exceeds offset+1 and that context holds the key |
| YamlBuilder.Builder.Has | src/main/java/perf/qdup/config/YamlParser.java:101-113 | the innermost context holds the key, or, recursively, any context does |
| YamlBuilder.Builder.Get | src/main/java/perf/qdup/config/YamlParser.java:117-136 | recursively, the value in the (skip+1)-th innermost context holding the key, else null |
| YamlBuilder.Builder.GetInt | src/main/java/perf/qdup/config/YamlParser.java:137-144 | the integer found, or 0 when absent or of another type |
| YamlBuilder.Builder.GetString | src/main/java/perf/qdup/config/YamlParser.java:145-152 | the string found, or "" when absent or of another type |
| YamlBuilder.LookFromHits | src/main/java/perf/qdup/config/YamlParser.java:125-133 | the skipping loop returns the hit at position skip |
| YamlBuilder.HitsStep | src/main/java/perf/qdup/config/YamlParser.java:125-133 | the hits of a stack are the top's hit followed by the hits below |
| YamlBuilder.NearestIntIsInnermost | src/main/java/perf/qdup/config/YamlParser.java:137-144 | the innermost holder decides; no holder gives 0 |
| YamlScan.NestLength | src/main/java/perf/qdup/config/YamlParser.java:158 | the longest prefix of whitespace and dashes |
| YamlScan.BareKeyEnd | src/main/java/perf/qdup/config/YamlParser.java:162 | a bare key runs over key characters, `}}` and `{{`, as far as they go |
| YamlScan.LastQuote | src/main/java/perf/qdup/config/YamlParser.java:162 | the last `"` from a position on, or none |
| YamlScan.KeyEnd | src/main/java/perf/qdup/config/YamlParser.java:162 | a key, when found, is non-empty and within the line |
| YamlScan.StripQuotes | src/main/java/perf/qdup/config/YamlParser.java:420-423 | a key wrapped in quotes loses them; a lone `"` throws; others are kept |
| YamlScan.QuotedKeyStoredWithoutQuotes | src/main/java/perf/qdup/config/YamlParser.java:420-423 | a quoted key runs to the last `"` of the line and is stored without its quotes |
| YamlScan.ScanFrom | src/main/java/perf/qdup/config/YamlParser.java:449-504 | the scan end lies between the start and the end of the line |
| YamlScan.ValueEnd | src/main/java/perf/qdup/config/YamlParser.java:449-504 | a value starting at the beginning of the text ends within it |
| YamlScan.ScanStopsOnlyAtStopChars | src/main/java/perf/qdup/config/YamlParser.java:449-504 | the scan stops early only at `#`, or at `,` inside an inline structure, or at `}` closing an inline map, or at `]` inside an inline list |
| YamlScan.ScanToEndOutsideInline | src/main/java/perf/qdup/config/YamlParser.java:449-504 | outside inline structures, with no `#`, the value is the rest of the line |
| YamlScan.ScanStopsAtFirstHash | src/main/java/perf/qdup/config/YamlParser.java:466-471 | unquoted, the value ends at the first `#` |
| YamlScan.ScanStopsAtFirstInlineStop | src/main/java/perf/qdup/config/YamlParser.java:449-504 | inside an inline list or map, an unquoted value outside `${{…}}` ends at its first `,`, `#` or closing bracket of the innermost structure |
| YamlScan.ScanValue | src/main/java/perf/qdup/config/YamlParser.java:449-504 | the scanning loop computes the scan end |
| Yaml.Top | src/main/java/perf/qdup/config/YamlParser.java:367 | the innermost open inline kind; none iff the stack is empty |
| Yaml.AfterKey | src/main/java/perf/qdup/config/YamlParser.java:437-510 | the text left after a key's value is no longer than before |
| Yaml.EntryData | src/main/java/perf/qdup/config/YamlParser.java:424-435 | an entry holds its key and line number, `dashed` iff dashed, `value` iff a value was scanned, and nothing else |
| Yaml.WithChildArray | src/main/java/perf/qdup/config/YamlParser.java:217-224 | a new empty array stored under `child` of the target; every other node unchanged |
| Yaml.ShortValueStaysOnLine | src/main/java/perf/qdup/config/YamlParser.java:506-510 | a scanned length of 1 or less stores no value and leaves the text in place |
| Yaml.StoredValueIsScannedPrefix | src/main/java/perf/qdup/config/YamlParser.java:439-510 | a stored value follows `:`, is longer than 1, is the scanned prefix ending at a stop character, and the rest is what follows it |
| Yaml.StoredValue | src/main/java/perf/qdup/config/YamlParser.java:506-510 | a scan that ends past the first character stores the scanned prefix and leaves the trimmed rest |
| Yaml.PlainValueEnd | src/main/java/perf/qdup/config/YamlParser.java:449-505 | outside inline structures, text without `#` is scanned to its end |
| Yaml.PlainValueTakesRestOfLine | src/main/java/perf/qdup/config/YamlParser.java:449-510 | outside inline structures, a plain value without `#` takes the rest of the line |
| Yaml.YamlParser.constructor | src/main/java/perf/qdup/config/YamlParser.java:167-171 | no documents, no errors |
| Yaml.YamlParser.HasErrors | src/main/java/perf/qdup/config/YamlParser.java:174 | true iff some file has a recorded error |
| Yaml.YamlParser.FileNames | src/main/java/perf/qdup/config/YamlParser.java:173 | the loaded names in load order |
| Yaml.YamlParser.NewJson | src/main/java/perf/qdup/config/YamlParser.java:190 | allocates a new empty node |
| Yaml.YamlParser.Add | src/main/java/perf/qdup/config/YamlParser.java:226 | appends to a node |
| Yaml.YamlParser.SetField | src/main/java/perf/qdup/config/YamlParser.java:427-428 | sets a field of a node |
| Yaml.YamlParser.AddField | src/main/java/perf/qdup/config/YamlParser.java:223 | adds under a key of a node |
| Yaml.YamlParser.AddError | src/main/java/perf/qdup/config/YamlParser.java:176-178 | appends one error to the file's list; afterwards there are errors |
| Yaml.YamlParser.PopToChildArray | src/main/java/perf/qdup/config/YamlParser.java:240-242 | pops until the innermost context marks a child array; no level popped marked one, so the one found is the nearest; ends iff one is found, and otherwise hangs at depth 1 |
| Yaml.YamlParser.PopToArrayTarget | src/main/java/perf/qdup/config/YamlParser.java:263-265 | pops until the target is an array; no target popped was one, so the array found is the nearest; ends iff one is found, and otherwise hangs at depth 1 |
| Yaml.YamlParser.PopToElder | src/main/java/perf/qdup/config/YamlParser.java:235-237 | pops while the line is less indented than the context or a child array is on top; every level popped met that test and, on completion, the level reached does not (with `ElderDepthUnique`, that level is the elder depth); it hangs at depth 1 only when every level meets it |
| Yaml.ElderDepthUnique | src/main/java/perf/qdup/config/YamlParser.java:235-237 | the elder depth is the only depth below which every level meets the pop test and at which the level does not |
| Yaml.YamlParser.PopAndLook | src/main/java/perf/qdup/config/YamlParser.java:235-236 | one level is popped, the bottom kept, and the two facts the loop tests are read from the new innermost level |
| Yaml.YamlParser.PopToInlineEntry | src/main/java/perf/qdup/config/YamlParser.java:307-309 | pops until the context below marks an inline list or map; no level popped had such a context below, so the entry found is the nearest; a hang leaves depth 1 |
| Yaml.YamlParser.PopPast | src/main/java/perf/qdup/config/YamlParser.java:374-377 | pops to the nearest context holding the key, or to the bottom, then pops once more |
| Yaml.YamlParser.Nest | src/main/java/perf/qdup/config/YamlParser.java:213-274 | a deeper line adds a new entry to the target's `child` array (made when missing) and pushes both; a shallower dash line pops to the elder depth and adds a new entry to the nearest child array below it; a shallower line without a dash ends at the elder depth, where the line is not less indented and no child array is on top; an equal dash line adds a new entry to the nearest child array; an equal line without a dash ends at the nearest array target; the context records the indentation; without a dash the heap is unchanged |
| Yaml.YamlParser.NestChild | src/main/java/perf/qdup/config/YamlParser.java:216-231 | the target's `child` key refers to the child array, which gains a new empty entry as its next element; both are pushed, with the child-array mark and the child length; no other node changes |
| Yaml.YamlParser.ChildArray | src/main/java/perf/qdup/config/YamlParser.java:217-224 | throws iff `child` holds something other than a node; otherwise the result is the node under the target's `child` key: the existing one, or a new array stored there, with nothing else changed |
| Yaml.YamlParser.PushEntry | src/main/java/perf/qdup/config/YamlParser.java:243-245 | a new empty object is added as the target's next element and pushed with an empty context; no other node changes |
| Yaml.YamlParser.PushTarget | src/main/java/perf/qdup/config/YamlParser.java:228 | the node is pushed with an empty context on top of the unchanged stack |
| Yaml.YamlParser.NestElder | src/main/java/perf/qdup/config/YamlParser.java:233-250 | pops to the elder depth, where the line is not less indented and no child array is on top; with a dash, a new empty entry is then added as the next element of the nearest child array below it, below which the stacks are a prefix of the old ones; without a dash the heap is unchanged |
| Yaml.YamlParser.PushDash | src/main/java/perf/qdup/config/YamlParser.java:238-247 | pops to the nearest child array, then a new empty entry is added as its next element and pushed with the child length; no other node changes |
| Yaml.YamlParser.NestSibling | src/main/java/perf/qdup/config/YamlParser.java:251-268 | records the child length; without a dash, the target is the nearest array reached by popping; with a dash, a new empty entry is added to the nearest child array |
| Yaml.YamlParser.Comment | src/main/java/perf/qdup/config/YamlParser.java:291-303 | an empty or array target gets a new comment node as its next element; otherwise the target keeps its kind and its first comment and no node is added; no other node changes; the line is consumed |
| Yaml.YamlParser.Comma | src/main/java/perf/qdup/config/YamlParser.java:304-316 | outside an inline structure the loop never ends and the stacks are unchanged; inside, it pops to the nearest inline entry (a hang leaves depth 1) and consumes the comma |
| Yaml.YamlParser.OpenInline | src/main/java/perf/qdup/config/YamlParser.java:317-362 | pushes the inline kind, a new child array marked with it, and a new first entry, which is the child array's element 0; an array target gains, as its next element, a new node holding the child array under `child`; any other target holds a node under its `child` key, which is the child array when the key was absent |
| Yaml.YamlParser.InlineNodes | src/main/java/perf/qdup/config/YamlParser.java:323-332 | builds the child array with its first entry and attaches it to the target |
| Yaml.YamlParser.CloseInline | src/main/java/perf/qdup/config/YamlParser.java:364-395 | throws iff no inline structure is open; a kind mismatch records an error; pops the innermost kind |
| Yaml.YamlParser.OpenEntry | src/main/java/perf/qdup/config/YamlParser.java:400-418 | a new empty entry is added as the next element of the target when it is empty or an array, otherwise of the nearest array popped to; it becomes the target with an empty context |
| Yaml.YamlParser.KeyLine | src/main/java/perf/qdup/config/YamlParser.java:398-517 | no key records "Expecting KEY : VALUE"; a key adds, where `OpenEntry` puts it, an entry holding exactly its unquoted key, line number, value and `dashed` once |
| Yaml.YamlParser.KeyEntry | src/main/java/perf/qdup/config/YamlParser.java:400-435 | the entry is opened first, so a hang comes before the throw of a lone `"` key; a completed entry is added where `OpenEntry` puts it and holds exactly the key, line number, dash flag and value |
| Yaml.YamlParser.FillEntry | src/main/java/perf/qdup/config/YamlParser.java:424-435 | fills a fresh entry; every other node is unchanged |
| Yaml.YamlParser.ContentStep | src/main/java/perf/qdup/config/YamlParser.java:290-519 | one step of the content loop consumes text or records an error |
| Yaml.YamlParser.BracketStep | src/main/java/perf/qdup/config/YamlParser.java:317-395 | a bracket opens or closes an inline structure |
| Yaml.YamlParser.ContentLoop | src/main/java/perf/qdup/config/YamlParser.java:290 | once an error exists, or with no text, nothing changes |
| Yaml.YamlParser.ProcessLine | src/main/java/perf/qdup/config/YamlParser.java:200-288 | blank, `---` and `...` lines change nothing; a dash inside an inline structure is an error |
| Yaml.YamlParser.PlaceLine | src/main/java/perf/qdup/config/YamlParser.java:209-288 | nesting is skipped inside inline structures and after an empty dash; the dash flag is set by a dash |
| Yaml.YamlParser.Load | src/main/java/perf/qdup/config/YamlParser.java:189-538 | the document is stored under its name in load order; inline structures left open are the last error; a file of skipped lines gives an empty document |
| Yaml.YamlParser.LoadLines | src/main/java/perf/qdup/config/YamlParser.java:189-528 | the line loop: a new root document, errors only added; all lines skipped means no errors, nothing open and an empty root |
| Yaml.YamlParser.Finish | src/main/java/perf/qdup/config/YamlParser.java:530-537 | an unclosed inline structure becomes the last error; the document is stored under the file name, which joins the load order once |
| Yaml.YamlParser.Unclosed | src/main/java/perf/qdup/config/YamlParser.java:530-532 | open inline structures at the end add one error |
| Yaml.YamlParser.GetJsonAll | src/main/java/perf/qdup/config/YamlParser.java:540-544 | a new array holding every document in load order |
| Yaml.YamlParser.FillLoaded | src/main/java/perf/qdup/config/YamlParser.java:542 | the array ends up holding every loaded document, in load order; the nodes before it are unchanged |
| Yaml.YamlParser.AppendLoaded | src/main/java/perf/qdup/config/YamlParser.java:542 | one more loaded document joins the array, at the next index, and no other node changes |
| Yaml.YamlParser.GetJson | src/main/java/perf/qdup/config/YamlParser.java:545-547 | the stored document, or a new empty one for an unknown name |
| Hosts.HostString | src/main/java/perf/ssh/config/RunConfigBuilder.java:509 | the user name, `@`, then the rest |
| Hosts.ParseHost | src/main/java/perf/ssh/config/RunConfigBuilder.java:498-512 | missing `@` iff the text has none |
| Hosts.ParseAfterUser | src/main/java/perf/ssh/config/RunConfigBuilder.java:499-506 | after the `@`, the result is a host or a bad port |
| Hosts.ParsedFields | src/main/java/perf/ssh/config/RunConfigBuilder.java:498-506 | the user name is the text before the first `@`; the host name runs to the first `:`; the port is the integer after it, else the default |
| Hosts.AfterUserFields | src/main/java/perf/ssh/config/RunConfigBuilder.java:500-506 | after the `@`: the host name has no `:`, and the port is the default or the integer after the first `:` |
| Hosts.NoPortFields | src/main/java/perf/ssh/config/RunConfigBuilder.java:500-506 | without a `:` after the `@` the rest is the host name and the port is the default |
| Hosts.SplitAtUser | src/main/java/perf/ssh/config/RunConfigBuilder.java:499-500 | a reference with an `@` is the user (holding no `@`), the `@`, and the rest |
| Hosts.CutAtUser | src/main/java/perf/ssh/config/RunConfigBuilder.java:499-500 | the user name ends at the first `@` |
| Hosts.CutAtPort | src/main/java/perf/ssh/config/RunConfigBuilder.java:502-504 | the host name ends at the first `:` after the `@`; the port is the rest if it parses, else the reference fails |
| Hosts.PortFields | src/main/java/perf/ssh/config/RunConfigBuilder.java:502-504 | cutting at the first `:` after the `@` splits the text into host name and port text |
| Hosts.ParseHostString | src/main/java/perf/ssh/config/RunConfigBuilder.java:506-509 | printing a well-formed host and parsing it gives the host back |
| Hosts.ParseHostStable | src/main/java/perf/ssh/config/RunConfigBuilder.java:507-509 | a parsed host parses the same again from its canonical text |
| HostResolution.ResolveOne | src/main/java/perf/ssh/config/RunConfigBuilder.java:492-517 | errors and resolved names only grow; throws iff a new alias has a bad port |
| HostResolution.ResolveOneFacts | src/main/java/perf/ssh/config/RunConfigBuilder.java:493-517 | the short name is covered (resolved or reported); hosts stay well formed; each new host comes from the alias |
| HostResolution.ParsedWellFormed | src/main/java/perf/ssh/config/RunConfigBuilder.java:498-506 | a parsed host is well formed |
| HostResolution.ResolveAllGrows | src/main/java/perf/ssh/config/RunConfigBuilder.java:491-519 | the loop only grows errors and names; it throws only on a bad port |
| HostResolution.ResolveAllWellFormed | src/main/java/perf/ssh/config/RunConfigBuilder.java:498-509 | every resolved host is well formed and round-trips through its text |
| HostResolution.ResolveAllCovers | src/main/java/perf/ssh/config/RunConfigBuilder.java:491-519 | without an exception, every short name is resolved or reported |
| HostResolution.CoveredGrows | src/main/java/perf/ssh/config/RunConfigBuilder.java:491-519 | coverage survives later steps |
| HostResolution.ResolveAllFromAlias | src/main/java/perf/ssh/config/RunConfigBuilder.java:491-519 | every resolved host was parsed from some alias |
| HostResolution.SharedAliasSecondUnresolved | src/main/java/perf/ssh/config/RunConfigBuilder.java:495-508 | two short names with the same fully qualified text: the second is never recorded |
| HostResolution.Lookup | src/main/java/perf/ssh/config/RunConfigBuilder.java:535 | a role's hosts through the resolved names; null present iff some name is unresolved |
| HostResolution.EvalErrorsIff | src/main/java/perf/ssh/config/RunConfigBuilder.java:531-552 | an expression records no error iff it alternates operators and roles |
| HostResolution.EvalMembers | src/main/java/perf/ssh/config/RunConfigBuilder.java:531-552 | a host is added iff some `=`/`+` role lists it, and removed iff some `-` role does |
| HostResolution.ShiftAdds | src/main/java/perf/ssh/config/RunConfigBuilder.java:531-552 | the adds from one operator on are its role's plus those after it |
| HostResolution.ShiftRemoves | src/main/java/perf/ssh/config/RunConfigBuilder.java:531-552 | the removes from one operator on are its role's plus those after it |
| HostResolution.EvalResolved | src/main/java/perf/ssh/config/RunConfigBuilder.java:535 | with every listed name resolved, no null is added |
| HostResolution.ResolveAllClosed | src/main/java/perf/ssh/config/RunConfigBuilder.java:509 | each resolved host's own text is also a resolved name |
| HostResolution.ResolveOneClosed | src/main/java/perf/ssh/config/RunConfigBuilder.java:509 | one step keeps that |
| HostResolution.RecordKeepsClosed | src/main/java/perf/ssh/config/RunConfigBuilder.java:507-509 | recording a host under its three names keeps every recorded host reachable by its own text |
| HostResolution.RecordFacts | src/main/java/perf/ssh/config/RunConfigBuilder.java:507-509 | the full text is recorded; well-formed hosts stay well formed; every other name keeps its host |
| HostResolution.EvalAddsResolved | src/main/java/perf/ssh/config/RunConfigBuilder.java:535-557 | every host an expression adds is written by a resolvable name |
| HostResolution.LookupClosed | src/main/java/perf/ssh/config/RunConfigBuilder.java:535 | every host looked up is written by a resolvable name |
| HostResolution.Canonical | src/main/java/perf/ssh/config/RunConfigBuilder.java:557 | exactly the texts of the selected hosts |
| HostResolution.ApplyOne | src/main/java/perf/ssh/config/RunConfigBuilder.java:526-561 | a role without an expression, or any role after an exception, changes nothing; otherwise only that role can gain hosts |
| HostResolution.ApplyAllSnoc | src/main/java/perf/ssh/config/RunConfigBuilder.java:526-561 | one more role applies its expression to the state left by the roles before it |
| HostResolution.ApplyOneFacts | src/main/java/perf/ssh/config/RunConfigBuilder.java:526-561 | one expression keeps the earlier errors and widens only its role; with every listed name resolved it does not throw and keeps them resolved |
| HostResolution.ApplyAllFacts | src/main/java/perf/ssh/config/RunConfigBuilder.java:526-561 | the expression loop keeps earlier errors and widens only roles with expressions; from a resolved start it does not throw |
| HostResolution.ApplyAllThrown | src/main/java/perf/ssh/config/RunConfigBuilder.java:526-561 | after an exception the remaining roles change nothing |
| StageAssembly.CollectOne | src/main/java/perf/ssh/config/RunConfigBuilder.java:563-614 | one visit only grows errors and hosts |
| StageAssembly.CmdsAt | src/main/java/perf/ssh/config/RunConfigBuilder.java:578 | a host without an entry has no scripts |
| StageAssembly.CollectPerHost | src/main/java/perf/ssh/config/RunConfigBuilder.java:563-614 | per host, the scripts are those of every visit reaching it, in visit order |
| StageAssembly.CollectHosts | src/main/java/perf/ssh/config/RunConfigBuilder.java:563-614 | a host has an entry iff some visit reaches it |
| StageAssembly.CollectErrors | src/main/java/perf/ssh/config/RunConfigBuilder.java:568-570 | the errors are one missing host definition per unresolved visit, in order |
| StageAssembly.MissingErrors | src/main/java/perf/ssh/config/RunConfigBuilder.java:568-570 | each names an unresolved short name; each missing visit is included |
| StageAssembly.NoMissingWhenResolved | src/main/java/perf/ssh/config/RunConfigBuilder.java:568-570 | with every name resolved, no error |
| StageAssembly.WrapperScripts | src/main/java/perf/ssh/config/RunConfigBuilder.java:572-578 | one wrapper per host, holding the host's scripts |
| StageAssembly.WrapperNamesDistinct | src/main/java/perf/ssh/config/RunConfigBuilder.java:573 | two well-formed hosts share a wrapper name iff they are the same host |
| StageChecks.Lookup | src/main/java/perf/ssh/config/RunConfigBuilder.java:420-430 | found iff the resolved name is registered |
| StageChecks.Warnings | src/main/java/perf/ssh/config/RunConfigBuilder.java:469 | one warning error per warning, in order |
| StageChecks.WarningsTimes | src/main/java/perf/ssh/config/RunConfigBuilder.java:465-470 | the warnings once per host |
| StageChecks.Validation | src/main/java/perf/ssh/config/RunConfigBuilder.java:454-481 | "missing signals" is the last error iff some wait is unsignalled; it names exactly those waits; a signal without a waiter is no error |
| StageChecks.NoMissingSignalsInRoles | src/main/java/perf/ssh/config/RunConfigBuilder.java:457-473 | the role loop never records "missing signals" |
| StageChecks.NoMissingSignalsInCmds | src/main/java/perf/ssh/config/RunConfigBuilder.java:459-472 | neither does the script loop |
| StageChecks.WarningsTimesAreWarnings | src/main/java/perf/ssh/config/RunConfigBuilder.java:469 | the per-host warnings are warnings |
| StageChecks.CmdErrorsEmpty | src/main/java/perf/ssh/config/RunConfigBuilder.java:459-472 | no errors iff every script exists and, with hosts, none warns |
| StageChecks.ErrorsOverEmpty | src/main/java/perf/ssh/config/RunConfigBuilder.java:457-473 | no errors iff no role has errors |
| StageChecks.ValidationCleanIff | src/main/java/perf/ssh/config/RunConfigBuilder.java:454-481 | a stage validates clean iff every role is fine and every wait is signalled |
| StageChecks.RolesOkIff | src/main/java/perf/ssh/config/RunConfigBuilder.java:457-473 | roles without errors iff every role is fine |
| RunConfigs.MakeScriptCmd | src/main/java/perf/ssh/config/RunConfigBuilder.java:378-384 | the bindings are kept only when given and non-empty |
| ConfigTypes.HostsOf | src/main/java/perf/ssh/config/RunConfigBuilder.java:535 | a role without a host set has no hosts |
| ConfigTypes.CmdsOf | src/main/java/perf/ssh/config/RunConfigBuilder.java:565 | a role without a script list has no scripts |
| JavaString.ParseInt | src/main/java/perf/ssh/config/RunConfigBuilder.java:503 | a parsed value fits in 32 bits |
| JavaString.ParseIntToString | src/main/java/perf/ssh/config/RunConfigBuilder.java:503-509 | parsing the decimal text of a 32-bit integer gives it back |
| JavaString.IndexOf | src/main/java/perf/ssh/config/RunConfigBuilder.java:499 | the first position of the character; none iff it is absent |
| JavaString.JavaSplitPiecesFree | src/main/java/perf/qdup/cmd/impl/ForEach.java:36 | no piece of a split holds the separator |
| JavaString.JavaSplitJoin | src/main/java/perf/qdup/cmd/impl/ForEach.java:36 | for input that does not end in the separator, the pieces join back to it |
| JavaString.TrimEmptyIffBlank | src/main/java/perf/qdup/config/YamlParser.java:202-206 | trimming gives empty iff every character is blank |
| JavaString.TrimIsSlice | src/main/java/perf/qdup/config/YamlParser.java:311 | the trimmed text is a slice of the input, with no blank at either end |
| JavaString.TrimBounds | src/main/java/perf/qdup/config/YamlParser.java:311 | the trimmed text is the input between the two positions returned |
| JavaString.TrimEnds | src/main/java/perf/qdup/config/YamlParser.java:311 | the trimmed text is empty or starts and ends with a non-blank character |
| RunConfigs.RunConfigBuilder.Named | src/main/java/perf/ssh/config/RunConfigBuilder.java:100-113 | everything empty, not valid |
| RunConfigs.RunConfigBuilder.Timed | src/main/java/perf/ssh/config/RunConfigBuilder.java:97-99 | named `run-` plus the time |
| RunConfigs.RunConfigBuilder.RolesWithScripts | src/main/java/perf/ssh/config/RunConfigBuilder.java:76-82 | the union of the setup, run and cleanup roles |
| RunConfigs.RunConfigBuilder.RolesWithoutHosts | src/main/java/perf/ssh/config/RunConfigBuilder.java:83-88 | roles with scripts minus those with expressions or hosts |
| RunConfigs.RunConfigBuilder.RolesWithoutScripts | src/main/java/perf/ssh/config/RunConfigBuilder.java:89-95 | roles with hosts or expressions minus those with scripts |
| RunConfigs.RunConfigBuilder.SetName | src/main/java/perf/ssh/config/RunConfigBuilder.java:338-342 | only a missing name is set |
| RunConfigs.RunConfigBuilder.GetName | src/main/java/perf/ssh/config/RunConfigBuilder.java:343 | the name |
| RunConfigs.RunConfigBuilder.SetRoleHostExpression | src/main/java/perf/ssh/config/RunConfigBuilder.java:358-360 | the role's expression is replaced |
| RunConfigs.RunConfigBuilder.AddHostToRole | src/main/java/perf/ssh/config/RunConfigBuilder.java:361-363 | the host joins the role's set |
| RunConfigs.RunConfigBuilder.AddHostAlias | src/main/java/perf/ssh/config/RunConfigBuilder.java:364-367 | the alias maps to the host and the host to itself |
| RunConfigs.RunConfigBuilder.AddRoleScript | src/main/java/perf/ssh/config/RunConfigBuilder.java:369-384 | appends the reference to one stage's list; the other stages are unchanged |
| RunConfigs.RunConfigBuilder.ForceRunState | src/main/java/perf/ssh/config/RunConfigBuilder.java:386-388 | always writes |
| RunConfigs.RunConfigBuilder.SetRunState | src/main/java/perf/ssh/config/RunConfigBuilder.java:389-396 | writes only an absent key; the first value stays |
| RunConfigs.RunConfigBuilder.SetHostState | src/main/java/perf/ssh/config/RunConfigBuilder.java:397-405 | always writes, because the unconditional set overrides the absent-check: the last value wins |
| RunConfigs.RunConfigBuilder.AddScript | src/main/java/perf/ssh/config/RunConfigBuilder.java:406-416 | added iff the name is new; a duplicate leaves the registry unchanged; afterwards the name is known |
| RunConfigs.RunConfigBuilder.GetScript | src/main/java/perf/ssh/config/RunConfigBuilder.java:420-430 | the script under the resolved name, if any |
| RunConfigs.RunConfigBuilder.ValidateRole | src/main/java/perf/ssh/config/RunConfigBuilder.java:459-472 | the script loop of one role computes its waits, signals and errors |
| RunConfigs.RunConfigBuilder.CheckCmd | src/main/java/perf/ssh/config/RunConfigBuilder.java:459-472 | a missing script adds one error; a found one adds its waits and signals when the role has hosts, and its warnings once per host |
| RunConfigs.RunConfigBuilder.PerHost | src/main/java/perf/ssh/config/RunConfigBuilder.java:465-470 | the host loop adds the summary once per host |
| RunConfigs.RunConfigBuilder.ValidateRoles | src/main/java/perf/ssh/config/RunConfigBuilder.java:457-473 | the role loop over every role of the stage |
| RunConfigs.RunConfigBuilder.RoleStep | src/main/java/perf/ssh/config/RunConfigBuilder.java:457-473 | one more role extends the waits, signals and errors |
| RunConfigs.RunConfigBuilder.ValidateStage | src/main/java/perf/ssh/config/RunConfigBuilder.java:454-481 | the stage validation over the role order taken, which covers every role; for any order, the waiters and signals are those of all roles, and no error is recorded exactly when every referenced script exists, none used on a role with hosts carries warnings, and every wait has a signal |
| RunConfigs.RunConfigBuilder.RunValidationOf | src/main/java/perf/ssh/config/RunConfigBuilder.java:450-452 | each stage's errors are empty iff that stage is fine |
| RunConfigs.RunConfigBuilder.Validate | src/main/java/perf/ssh/config/RunConfigBuilder.java:438-449 | valid iff no error is recorded and all three stages are fine |
| RunConfigs.RunConfigBuilder.IsValid | src/main/java/perf/ssh/config/RunConfigBuilder.java:433-436 | records and returns the verdict |
| RunConfigs.RunConfigBuilder.SplitHost | src/main/java/perf/ssh/config/RunConfigBuilder.java:498-506 | the index-and-substring code computes the host parse |
| RunConfigs.RunConfigBuilder.ResolveStep | src/main/java/perf/ssh/config/RunConfigBuilder.java:492-517 | one short name resolves as in host resolution |
| RunConfigs.RunConfigBuilder.ResolveRole | src/main/java/perf/ssh/config/RunConfigBuilder.java:492-518 | the host loop of one role visits each of its hosts once, unless it throws; the hosts seen, the errors and whether it threw are exactly host resolution over the names visited so far |
| RunConfigs.RunConfigBuilder.ResolveHosts | src/main/java/perf/ssh/config/RunConfigBuilder.java:491-519 | the hosts seen, the errors and whether it threw are exactly host resolution over the (role, short name) pairs taken, each listed pair once; without an exception every listed pair is taken |
| RunConfigs.RunConfigBuilder.ApplyExpression | src/main/java/perf/ssh/config/RunConfigBuilder.java:527-561 | errors as evaluated; throws iff null survives adds minus removes; otherwise a non-empty selection is written to the role by canonical text |
| RunConfigs.RunConfigBuilder.EvalStep | src/main/java/perf/ssh/config/RunConfigBuilder.java:531-552 | one token, or an operator and its role, of an expression: the adds, removes and errors gathered so far plus those of the rest equal the expression's |
| RunConfigs.RunConfigBuilder.ApplyExpressions | src/main/java/perf/ssh/config/RunConfigBuilder.java:526-561 | the expressions of the roles taken, each once, folded in order; all roles taken unless one throws; hosts only grow and only for roles with expressions; with every name resolved, nothing throws |
| RunConfigs.RunConfigBuilder.AllHostNames | src/main/java/perf/ssh/config/RunConfigBuilder.java:522-523 | exactly the texts of the resolved hosts |
| RunConfigs.RunConfigBuilder.CollectStep | src/main/java/perf/ssh/config/RunConfigBuilder.java:567-579 | one (role, host) pair: a missing definition, or the role's scripts appended to the host |
| RunConfigs.RunConfigBuilder.CollectRole | src/main/java/perf/ssh/config/RunConfigBuilder.java:567-580 | the host loop visits every host of the role once; the assembly is the fold over the visits |
| RunConfigs.RunConfigBuilder.CollectStageRole | src/main/java/perf/ssh/config/RunConfigBuilder.java:564-583 | a role with commands visits every one of its hosts; visits stay within the stage's roles and hosts |
| RunConfigs.RunConfigBuilder.CollectStage | src/main/java/perf/ssh/config/RunConfigBuilder.java:563-614 | the stage assembled over the pairs visited, which are exactly the acted-on (role, listed host) pairs, each once; errors are the missing definitions among them, in order |
| RunConfigs.RunConfigBuilder.CollectRoles | src/main/java/perf/ssh/config/RunConfigBuilder.java:564-583 | the role loop of a stage: every acted-on (role, listed host) pair is visited, and only those; the assembly is the fold over the visits |
| RunConfigs.RunConfigBuilder.AssembleStages | src/main/java/perf/ssh/config/RunConfigBuilder.java:563-614 | per stage: the acted-on pairs visited once each; a host has an entry iff some visit reaches it, holding the scripts of those visits in order; every host is well formed; the errors are the missing definitions of setup, cleanup, then run |
| RunConfigs.RunConfigBuilder.BuildConfig | src/main/java/perf/ssh/config/RunConfigBuilder.java:483-633 | throws iff resolution or an expression throws, and then the errors are those recorded up to the throw; errors are those of resolution, then the expressions, then the missing definitions of each stage; errors-only iff errors exist; otherwise setup and cleanup have one wrapper per reached host holding its scripts in visit order, run has the scripts of each reached host, the `all` role lists every resolved host, and each stage validates clean iff it is fine |
| RunConfigs.RunConfigBuilder.ResolveAndExpand | src/main/java/perf/ssh/config/RunConfigBuilder.java:491-561 | host resolution over the pairs taken, then the `all` role, then the expression fold over the roles taken; throws iff either throws, with the errors recorded up to the throw; afterwards every resolved host is well formed and listed by `all` |
| RunConfigs.RunConfigBuilder.WithAll | src/main/java/perf/ssh/config/RunConfigBuilder.java:521-524 | the `all` role gains every resolved host by its text; the other roles are unchanged |
| RunConfigs.RunConfigBuilder.AddError | src/main/java/perf/ssh/config/RunConfigBuilder.java:148-150 | appends one error |
| RunConfigs.RunConfigBuilder.ErrorCount | src/main/java/perf/ssh/config/RunConfigBuilder.java:154 | the number of errors |
| RunConfigs.StageFacts | src/main/java/perf/ssh/config/RunConfigBuilder.java:563-614 | an assembled stage has an entry exactly for the hosts reached, each well formed and holding its reference scripts |
| RunConfigs.WaitsSignalsAdd | src/main/java/perf/ssh/config/RunConfigBuilder.java:467-468 | the waits and signals of one more role are unions |
| RunConfigs.RoleQueriesPartition | src/main/java/perf/ssh/config/RunConfigBuilder.java:76-95 | no role is both without hosts and without scripts; the three queries relate as set differences |

## Left out

- File I/O: `YamlParser.load(String)`, the reader plumbing and the script-directory check. `load` is modelled over the file's lines.
- Java regular expressions: the four patterns are replaced by hand-written scanners (`YamlScan`).
- `RunConfigBuilder.loadYaml`/`loadYamlJson`, `eachChildArray`/`eachChildEntry` and `yamlChildMap`: command building belongs to `CmdBuilder`, which is not part of this model.
- `knownHosts`, `identity` and `passphrase`, with their getters and setters: plain fields with no logic. The built configuration does not carry them.
- `CmdBuilder.split` and `Cmd.populateStateVariables` are function parameters, since their code is not part of this model.
- `CommandSummary` is given as data: each script carries its waits, signals and warnings.
- `deepCopy` is a value copy.
- `State` is a run map and a per-host map of maps.
- `Host` is a value with `DEFAULT_PORT` 22; its `toString` is `user@host:port`.
- `HashedSets.get`/`HashedLists.get` of an absent key give an empty collection.
- `roleHosts.putAll(ALL_ROLE, …)` adds to the role's set.
- Error messages are reduced to their kind and subjects.
- The order of `HashMap`/`HashSet` iteration is unknown, so it is a choice. The contracts hold for every order.
- `Context` beyond `next`/`skip` and the coordinator's signal count: logging, profiling, terminals, sessions, scheduling and downloads are I/O and concurrency.
- The coordinator is a sequential map; its thread safety is not modelled.
- The `Cmd` base class: only the tree, the successor links, the tail and the skip target are modelled.
- CmdGraph.SkipTarget: `Cmd.getSkip` is not part of this model. Its rule for a last child, which skips back to a looping parent and otherwise to the parent's skip target, follows the expectations of `ForEachTest.then_injects_with_children`.
- JavaString.ParseInt: only the ASCII digits `0`–`9` are accepted. `Integer.parseInt` also accepts every other Unicode decimal digit (through `Character.digit`), so a port written in such digits throws in the model but parses in Java.
- `System.currentTimeMillis` is the constructor's parameter.
- The React web UI has no logic to model.
- RunConfigs.RunConfigBuilder.BuildConfig: the run validation is stated only as each stage's clean-iff-fine verdict; the errors inside it are stated through `RunValidationOf` and `ValidateStage`.
- Yaml.YamlParser.Load: the tree a document produces is stated step by step: where each new entry, child array or comment node is attached is in the contracts of `PushEntry`, `ChildArray`, `NestChild`, `PushDash`, `OpenEntry`, `KeyEntry`, `KeyLine`, `OpenInline` and `Comment` (`EntryAdded`, `AddedEntry`, `DashEntry`); Load's own contract has no whole-document specification.
- RepeatUntil.CountFor: a null resolved name counts 0. `Coordinator.getSignalCount` is not part of this model, and a concurrent-map lookup of null would throw there.
- Contexts.SpyContext.GetSignalCount: a name never signalled counts 0, the assumed behaviour of `Coordinator.getSignalCount`, which is not part of this model.
- JsonHeap.Append: `Json.add(value)` is assumed to store the value under the integer key equal to the node's size; `Json` is not part of this model.
- JsonHeap.AddKeyed: `Json.add(key, value)` is assumed to set an absent key, append to an array already under the key, and otherwise replace the old value by a new array holding the old and new values; `Json` is not part of this model.

# pear benchmark integration: edge-case build dispatcher

This project models the build integration of the pear fuzzer (a binary-rewriting
AFL variant) in FuzzBench, `fuzzers/pear_bench/fuzzer.py`, in Dafny:

- **`fixup_riz_register`**: the assembly patch. It replaces every occurrence of
  `andb %bh,(%rcx,%riz,2)` with `andb (%rcx), %bh`. It is modelled on Python's
  `str.replace`, written as CPython's find-based algorithm (module `AsmPatch`,
  built on `Text`).
- **The edge-case registry**: three benchmarks, each with a handler and a
  build-command template (module `EdgeCases`). It also covers the
  `str.format` call that fills a template with the target path and the
  assembly path (module `Formatting`).
- **`build` from the environment lookups on** (module `Builder`). The model
  returns a `Plan`: the environment assignments, shell commands and handler
  runs it would carry out, in order, plus how it ends. It ends by completing,
  by `exit(1)` when the target binary is missing, or with the exception
  Python would raise. The plan covers these steps of the build:
  - the `benchmark`/`BENCHMARK` precedence;
  - the branch between the registered path (emit assembly, run the handler,
    run the filled template) and the plain `gtirb-pprinter --binary` path.
- **`get_stats`** (module `Stats`). It reads the lines of `fuzzer_stats` in a
  loop, splits each on `": "`, strips both pieces, fills a dictionary and
  reports `execs_per_sec`. `GetStats` is the loop as a method; it is proved
  equal to the functional specification `StatsReport`.

The Python string operations used are modelled in `Text`:

- `find`, `replace` and `split` with a separator;
- `join`, used to state that splitting loses nothing and that `replace` is a split followed by a join;
- `strip`, `lstrip` and `rstrip` over the `str.isspace` character set.

## Model

| member | source | states |
|---|---|---|
| AsmPatch.FixupRiz | fuzzers/pear_bench/fuzzer.py:26-31 | the contents written back hold no occurrence of the `%riz` instruction (their exact text is stated by AsmPatch.FixupRizAsJoin) |
| AsmPatch.FixupRizAsJoin | fuzzers/pear_bench/fuzzer.py:28 | the fixed assembly is the original cut at every riz instruction into pieces free of it, the pieces kept in order and joined by the replacement; joined by the instruction they give back the original |
| AsmPatch.FixupRizWithoutPattern | fuzzers/pear_bench/fuzzer.py:28 | text read from the assembly file without the `%riz` instruction is written back unchanged |
| AsmPatch.FixupRizIdempotent | fuzzers/pear_bench/fuzzer.py:28 | running the fixup on its own output changes nothing |
| AsmPatch.FixupRizSingle | fuzzers/pear_bench/fuzzer.py:28 | a file with one occurrence gets exactly that occurrence replaced and everything around it kept |
| AsmPatch.RizClearsPattern | fuzzers/pear_bench/fuzzer.py:28 | the two instruction strings satisfy the conditions under which a replacement cannot create a new occurrence |
| Text.Find | fuzzers/pear_bench/fuzzer.py:28 | the index returned is an occurrence with none before it; None exactly when the pattern does not occur |
| Text.ReplaceWithoutOccurrence | fuzzers/pear_bench/fuzzer.py:28 | `replace` leaves text without the pattern unchanged |
| Text.ReplaceSingleOccurrence | fuzzers/pear_bench/fuzzer.py:28 | with a single occurrence, `replace` substitutes it and copies the text before and after verbatim |
| Text.ReplaceLeavesNoOccurrence | fuzzers/pear_bench/fuzzer.py:28 | when pattern and replacement cannot overlap into a new match, the result of `replace` holds no occurrence |
| Text.ReplaceIdempotent | fuzzers/pear_bench/fuzzer.py:28 | under the same condition, a second `replace` is the identity on the first one's result |
| Text.ReplaceAllAsJoin | fuzzers/pear_bench/fuzzer.py:28 | `s.replace(pat, rep)` equals `rep.join(s.split(pat))`: the text between occurrences is copied in order and every occurrence becomes `rep` |
| Text.JoinSplit | fuzzers/pear_bench/fuzzer.py:44 | joining the pieces of `split(sep)` with `sep` gives back the line |
| Text.SplitFirstPiece | fuzzers/pear_bench/fuzzer.py:44 | the first piece of `split(sep)` is the text before the leftmost separator, or the whole text when there is none |
| Text.SplitPiecesClean | fuzzers/pear_bench/fuzzer.py:44 | no piece of `split(sep)` holds the separator |
| Text.TrimStartRemovesSpace | fuzzers/pear_bench/fuzzer.py:45 | `lstrip` removes a whitespace-only prefix, and all of it |
| Text.TrimEndRemovesSpace | fuzzers/pear_bench/fuzzer.py:45 | `rstrip` removes a whitespace-only suffix, and all of it |
| Text.StripRemovesSpace | fuzzers/pear_bench/fuzzer.py:45 | `strip` keeps a slice of its input that neither starts nor ends with whitespace, surrounded only by whitespace |
| Stats.SplitSingle | fuzzers/pear_bench/fuzzer.py:44 | a split yields one piece exactly when the separator does not occur |
| Stats.SplitLineOneSeparator | fuzzers/pear_bench/fuzzer.py:44 | a line unpacks into key and value exactly when `": "` occurs once; key and value are the text before and after it |
| Stats.SplitLineJoined | fuzzers/pear_bench/fuzzer.py:44 | a key and a value without the separator, joined by it, unpack back into the same key and value |
| Stats.GetStats | fuzzers/pear_bench/fuzzer.py:33-49 | the loop over the lines returns exactly the report of the functional specification, including its errors |
| Stats.ParseStatsOutcome | fuzzers/pear_bench/fuzzer.py:43-45 | parsing succeeds exactly when every line unpacks into two; otherwise it fails at the first line that does not |
| Stats.ParseStatsLastWins | fuzzers/pear_bench/fuzzer.py:42-45 | the dictionary holds exactly the stripped keys that occur, each mapped to the stripped value of its last line |
| Stats.StatsReportSpec | fuzzers/pear_bench/fuzzer.py:36-48 | without a stats file the report is `'{}'`; otherwise, when every line unpacks, it is the last `execs_per_sec` value (a missing key raises), and when a line does not unpack, the first malformed line raises |
| Formatting.FormatLiteral | fuzzers/pear_bench/fuzzer.py:113-116 | `format` copies brace-free text through unchanged |
| Formatting.FormatField | fuzzers/pear_bench/fuzzer.py:113-116 | `{output_binary}` and `{fixed_asm}` are replaced by the value of the keyword argument they name |
| Formatting.FormatTemplate | fuzzers/pear_bench/fuzzer.py:113-116 | a registry template formats to its text with the target path and the assembly path in place of its two fields |
| Formatting.TemplateFieldsOnce | fuzzers/pear_bench/fuzzer.py:90-100 | each registry-shaped template holds `{output_binary}` and `{fixed_asm}` once each, and nowhere else |
| Formatting.FilledCommandHasNoField | fuzzers/pear_bench/fuzzer.py:113-118 | once filled with paths without `{`, the command holds no replacement field and holds both paths verbatim |
| EdgeCases.CurlWellFormed | fuzzers/pear_bench/fuzzer.py:88-91 | the curl template has no brace besides its two fields |
| EdgeCases.OpenSslWellFormed | fuzzers/pear_bench/fuzzer.py:92-95 | the openssl template has no brace besides its two fields |
| EdgeCases.SystemdWellFormed | fuzzers/pear_bench/fuzzer.py:96-101 | the systemd template has no brace besides its two fields |
| EdgeCases.Lookup | fuzzers/pear_bench/fuzzer.py:86-104 | the registry has an entry exactly for the three benchmark identifiers, and every entry's template is well formed |
| EdgeCases.RegisteredHandlers | fuzzers/pear_bench/fuzzer.py:88-101 | curl and openssl run the riz fixup; systemd's handler leaves the assembly unchanged |
| EdgeCases.PatchIdempotent | fuzzers/pear_bench/fuzzer.py:89-99 | applying any registered handler twice has the effect of applying it once |
| Text.ReplaceAll | fuzzers/pear_bench/fuzzer.py:28 | `str.replace` with a non-empty pattern; its behaviour is stated by Text.ReplaceAllAsJoin, Text.ReplaceWithoutOccurrence, Text.ReplaceSingleOccurrence, Text.ReplaceLeavesNoOccurrence and Text.ReplaceIdempotent |
| Text.Split | fuzzers/pear_bench/fuzzer.py:44 | `str.split(sep)`; stated by Text.JoinSplit, Text.SplitPiecesClean, Text.SplitFirstPiece and Stats.SplitSingle |
| Text.Strip | fuzzers/pear_bench/fuzzer.py:45 | `str.strip()`; stated by Text.StripRemovesSpace |
| Stats.SplitLine | fuzzers/pear_bench/fuzzer.py:44 | the unpacking `key, value = line.split(': ')`; stated by Stats.SplitLineOneSeparator and Stats.SplitLineJoined |
| Stats.Collect | fuzzers/pear_bench/fuzzer.py:42-45 | the loop over the lines, storing each stripped key and value; stated by Stats.ParseStatsOutcome and Stats.ParseStatsLastWins |
| Stats.ParseStats | fuzzers/pear_bench/fuzzer.py:42-45 | the dictionary built from all lines, or the first line that does not unpack; stated by Stats.ParseStatsOutcome and Stats.ParseStatsLastWins |
| Stats.StatsReport | fuzzers/pear_bench/fuzzer.py:33-49 | the whole of `get_stats`; stated by Stats.StatsReportSpec, and Stats.GetStats is proved equal to it |
| Formatting.Format | fuzzers/pear_bench/fuzzer.py:113-116 | `str.format` with the two keyword arguments; stated by Formatting.FormatLiteral, Formatting.FormatField and Formatting.FormatTemplate |
| EdgeCases.Registry | fuzzers/pear_bench/fuzzer.py:87-102 | the three entries with their handlers and templates; stated by EdgeCases.Lookup, EdgeCases.RegisteredHandlers and the three WellFormed lemmas |
| EdgeCases.Patch | fuzzers/pear_bench/fuzzer.py:110 | the effect of an entry's handler on the assembly text; stated by EdgeCases.RegisteredHandlers and EdgeCases.PatchIdempotent |
| Builder.ResolveBenchmark | fuzzers/pear_bench/fuzzer.py:81-84 | `benchmark` when set, otherwise `BENCHMARK`; stated by Builder.BenchmarkTakesPrecedence, Builder.BenchmarkUpperAsFallback and Builder.NoBenchmarkFails |
| Builder.Dispatch | fuzzers/pear_bench/fuzzer.py:104-122 | the branch on the registry; stated by Builder.RegisteredBenchmarkPath and Builder.UnregisteredBenchmarkPath |
| Builder.Build | fuzzers/pear_bench/fuzzer.py:51-122 | `build` from the environment lookups on, as the ordered plan of its effects and how it ends; stated by Builder.BuildMissingTarget, Builder.NoBenchmarkFails, Builder.RegisteredBenchmarkPath, Builder.UnregisteredBenchmarkPath and Builder.HandlerRunsOnce; its commands are built by Builder.RewriteSteps and Builder.RewriteCommand (lines 77-78), Builder.IrPath, Builder.EmitAsmCommand (line 107) and Builder.EmitBinaryCommand (line 122) |
| Builder.PathJoin | fuzzers/pear_bench/fuzzer.py:69 | `os.path.join` on POSIX: an absolute second argument replaces the first, an empty first argument gives the second; otherwise the first is followed by the second, with a `/` between them exactly when the first does not already end in `/` |
| Builder.BuildMissingTarget | fuzzers/pear_bench/fuzzer.py:68-72 | a missing target binary ends the build with status 1 before any step, and nothing else ends it with a status |
| Builder.BenchmarkTakesPrecedence | fuzzers/pear_bench/fuzzer.py:81-82 | when `benchmark` is set, the value of `BENCHMARK` makes no difference |
| Builder.BenchmarkUpperAsFallback | fuzzers/pear_bench/fuzzer.py:83-84 | when `benchmark` is missing, `BENCHMARK` takes its place |
| Builder.NoBenchmarkFails | fuzzers/pear_bench/fuzzer.py:77-84 | with neither variable set, the build raises after the rewrite and runs nothing further |
| Builder.RegisteredBenchmarkPath | fuzzers/pear_bench/fuzzer.py:104-118 | a registered benchmark: the rewrite, then the assembly emitted next to the target, the entry's handler on it, and the entry's filled command; the build completes (given that the emitted assembly file exists) |
| Builder.UnregisteredBenchmarkPath | fuzzers/pear_bench/fuzzer.py:119-122 | any other benchmark: the rewrite, then only the pretty-printer's binary emission; the build completes |
| Builder.HandlerRunsOnce | fuzzers/pear_bench/fuzzer.py:104-122 | the handler runs exactly once when the target is present and the benchmark is registered, and never otherwise |

## Left out

- The steps of `build` before the target lookup are left out: the copy of `afl-fuzz`, the compiler environment variables and `utils.build_benchmark()`. They are calls into code that is not part of this model.
- The exit statuses of the `os.system` commands are not modelled. The source does not inspect them, so the plan lists each command in turn.
- Builder.Dispatch: assumes the assembly emitted by `gtirb-pprinter --asm` exists and can be read and written. If that command fails to produce it, the riz fixup of the curl and openssl entries raises FileNotFoundError when opening it and the link command never runs; the model still lists the link command and ends with Completed.
- AsmPatch.FixupRiz: `asm` is the text `f.read()` returns, decoded with the locale's encoding and with `\r\n` and lone `\r` line endings read as `\n`, and the result is what `f.write` is given, not the bytes that end up in the file. The opening, reading and writing are not modelled, so a file with `\r\n` or `\r` line endings (which is written back with `\n`), or with bytes that do not decode, is outside the model.
- `print` output is left out, and so is the `json.dumps` of the report.
- In `get_stats`, the file system is reduced to a flag saying whether `fuzzer_stats` exists, plus the file's lines. `read().splitlines()` itself is not modelled.
- Stats.StatsReport: reports the raw text of `execs_per_sec` and does not model its `float(...)` conversion or the ValueError that conversion can raise. Floating point is outside the model.
- Text.ReplaceAll and Text.Split require a non-empty pattern. Python's empty-pattern behaviour is left out because the only patterns used are non-empty literals.
- Formatting.Format models only the parts of `str.format` the registry templates can reach: `{{`, `}}`, the two keyword fields, other field names, an unclosed `{` and a stray `}`. Every other field is reported as UnknownField, although Python distinguishes them: a named field raises KeyError, but `{}` and `{0}` raise IndexError and a `{` inside a field raises ValueError. Conversions (`!r`), format specs (`:...`), indexing and attribute access inside a field are likewise treated as part of an unknown field name.
- Text.IsSpace covers the characters for which `str.isspace` is true. Strings are sequences of code points, with no decoding step.
- Builder.Build models `os.getenv('FUZZ_TARGET')` returning None as the TypeError raised by `os.path.join`, without modelling other argument types.
- `fuzz` is left out. It delegates entirely to the AFL++ integration, which is not part of this model.

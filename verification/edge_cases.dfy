/**
 * The edge-case registry of the build: the benchmarks whose rewritten
 * assembly the pretty-printer cannot assemble and link by itself, each with
 * the handler applied to the emitted assembly and the command that
 * assembles and links it instead.
 */
module EdgeCases {
  import opened Base
  import opened Formatting
  import AsmPatch

  /** The handler run on the emitted assembly. */
  datatype Handler =
    | FixupRiz    // rewrites the `%riz` instruction
    | DoNothing   // leaves the assembly as it is

  /**
   * One registry entry. The build-command template is `head`, then
   * `{output_binary}`, then `middle`, then `{fixed_asm}`, then `tail`.
   */
  datatype EdgeCase = EdgeCase(handler: Handler, head: string, middle: string, tail: string)
  {
    /** The build-command template as written in the registry. */
    function BuildCmd(): string
    {
      Template(head, middle, tail)
    }

    /** The template has each field once and no other brace. */
    predicate WellFormed()
    {
      NoBraces(head) && NoBraces(middle) && NoBraces(tail)
    }
  }

  /** Command-line arguments, each preceded by a space. */
  function Flags(args: seq<string>): string
  {
    if args == [] then [] else " " + args[0] + Flags(args[1..])
  }

  predicate AllNoBraces(args: seq<string>)
  {
    forall i :: 0 <= i < |args| ==> NoBraces(args[i])
  }

  lemma {:induction false} FlagsNoBraces(args: seq<string>)
    requires AllNoBraces(args)
    ensures NoBraces(Flags(args))
  {
    if args != [] {
      FlagsNoBraces(args[1..]);
      assert NoBraces(" " + args[0]);
    }
  }

  const Curl: string := "curl_curl_fuzzer_http"
  const OpenSsl: string := "openssl_x509"
  const Systemd: string := "systemd_fuzz-link-parser"

  /** The benchmark identifiers that take the special path. */
  const EdgeCaseIds: set<string> := {Curl, OpenSsl, Systemd}

  /** Link a flat executable without position independence or start files. */
  const FlatExecutable: seq<string> := ["-no-pie", "-nostartfiles"]

  const CurlLinkFlags: seq<string> :=
    ["-ldl", "-lm", "-lpthread", "-lgcc_s", "-lc"] + FlatExecutable

  const OpenSslLinkFlags: seq<string> :=
    ["-ldl", "-lm", "-lpthread", "-lgcc_s"] + FlatExecutable

  const SystemdLibraries: seq<string> :=
    ["-l:libdl.so.2", "-l:libm.so.6", "-l:libsystemd-shared-251.so",
     "-l:libgcc_s.so.1", "-l:libpthread.so.0", "-l:libc.so.6"]

  const SystemdLibraryPath: seq<string> :=
    ["-L/out/src/shared", "-Wl,-rpath,/out/src/shared"]

  /** The flat-executable flags are written twice in the systemd entry's command. */
  const SystemdLinkFlags: seq<string> :=
    SystemdLibraries + SystemdLibraryPath + FlatExecutable + FlatExecutable

  /** Each template is `gcc -o {output_binary} {fixed_asm}` followed by the link flags. */
  const CurlEntry: EdgeCase := EdgeCase(FixupRiz, "gcc -o ", " ", Flags(CurlLinkFlags))
  const OpenSslEntry: EdgeCase := EdgeCase(FixupRiz, "gcc -o ", " ", Flags(OpenSslLinkFlags))
  // The pretty-printer does not produce a working link command for this
  // benchmark, so the registry supplies one and the assembly is kept.
  const SystemdEntry: EdgeCase := EdgeCase(DoNothing, "gcc -o ", " ", Flags(SystemdLinkFlags))

  const Registry: map<string, EdgeCase> :=
    map[Curl := CurlEntry, OpenSsl := OpenSslEntry, Systemd := SystemdEntry]

  lemma {:induction false} FlatExecutableNoBraces()
    ensures AllNoBraces(FlatExecutable)
  {
    assert NoBraces(FlatExecutable[0]) && NoBraces(FlatExecutable[1]);
  }

  lemma {:induction false} CurlWellFormed()
    ensures CurlEntry.WellFormed()
  {
    FlatExecutableNoBraces();
    FlagsNoBraces(CurlLinkFlags);
  }

  lemma {:induction false} OpenSslWellFormed()
    ensures OpenSslEntry.WellFormed()
  {
    FlatExecutableNoBraces();
    FlagsNoBraces(OpenSslLinkFlags);
  }

  lemma {:induction false} SystemdLibrariesNoBraces()
    ensures AllNoBraces(SystemdLibraries)
  {
    forall i | 0 <= i < |SystemdLibraries|
      ensures NoBraces(SystemdLibraries[i])
    {
      if i == 0 { assert NoBraces("-l:libdl.so.2"); }
      else if i == 1 { assert NoBraces("-l:libm.so.6"); }
      else if i == 2 { assert NoBraces("-l:libsystemd-shared-251.so"); }
      else if i == 3 { assert NoBraces("-l:libgcc_s.so.1"); }
      else if i == 4 { assert NoBraces("-l:libpthread.so.0"); }
      else { assert NoBraces("-l:libc.so.6"); }
    }
  }

  lemma {:induction false} AllNoBracesConcat(a: seq<string>, b: seq<string>)
    requires AllNoBraces(a) && AllNoBraces(b)
    ensures AllNoBraces(a + b)
  {
    forall i | 0 <= i < |a + b|
      ensures NoBraces((a + b)[i])
    {
      if i >= |a| {
        assert (a + b)[i] == b[i - |a|];
      }
    }
  }

  lemma {:induction false} SystemdLibraryPathNoBraces()
    ensures AllNoBraces(SystemdLibraryPath)
  {
    assert NoBraces(SystemdLibraryPath[0]) && NoBraces(SystemdLibraryPath[1]);
  }

  lemma {:induction false} SystemdWellFormed()
    ensures SystemdEntry.WellFormed()
  {
    FlatExecutableNoBraces();
    SystemdLibrariesNoBraces();
    SystemdLibraryPathNoBraces();
    AllNoBracesConcat(SystemdLibraries, SystemdLibraryPath);
    AllNoBracesConcat(SystemdLibraries + SystemdLibraryPath, FlatExecutable);
    AllNoBracesConcat(SystemdLibraries + SystemdLibraryPath + FlatExecutable, FlatExecutable);
    FlagsNoBraces(SystemdLinkFlags);
  }

  /**
   * `current_benchmark in edge_cases` followed by `edge_cases[current_benchmark]`:
   * an entry exactly for the three registered identifiers, and every entry
   * has a well-formed template.
   */
  function Lookup(id: string): (r: Option<EdgeCase>)
    ensures r.Some? <==> id in EdgeCaseIds
    ensures r.Some? ==> r.value.WellFormed()
  {
    CurlWellFormed();
    OpenSslWellFormed();
    SystemdWellFormed();
    if id in Registry then Some(Registry[id]) else None
  }

  /** The effect of a handler on the contents of the assembly file. */
  function Patch(h: Handler, asm: string): string
  {
    match h
    case FixupRiz => AsmPatch.FixupRiz(asm)
    case DoNothing => asm
  }

  /**
   * The curl and openssl entries run the riz fixup; the systemd entry leaves
   * the assembly unchanged.
   */
  lemma {:induction false} RegisteredHandlers(id: string, asm: string)
    requires id in EdgeCaseIds
    ensures Lookup(id).value.handler == (if id == Systemd then DoNothing else FixupRiz)
    ensures id == Systemd ==> Patch(Lookup(id).value.handler, asm) == asm
    ensures id != Systemd ==> Patch(Lookup(id).value.handler, asm) == AsmPatch.FixupRiz(asm)
  {
  }

  /** Every handler, applied a second time, leaves the assembly unchanged. */
  lemma {:induction false} PatchIdempotent(h: Handler, asm: string)
    ensures Patch(h, Patch(h, asm)) == Patch(h, asm)
  {
    match h
    case FixupRiz => AsmPatch.FixupRizIdempotent(asm);
    case DoNothing =>
  }
}

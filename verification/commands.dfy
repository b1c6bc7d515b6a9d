/** The decision logic of the `ABcluster`, `differentiate_chromosomes` and
    `preprocess` subcommands of hypermatrix/main.py. Running the chosen
    script, file permissions and printing are outside the model: each
    subcommand returns what it would write to the config file, which
    script it would run, or which command it would execute. */
module Commands {
  import opened Wrappers
  import ConfigFile

  /** Python truthiness of an optional string argument: given and non-empty. */
  predicate Supplied(arg: Option<string>) {
    arg.Some? && arg.value != ""
  }

  // ---------------------------------------------------------------- ABcluster

  /** The options `ABcluster` reads. */
  datatype ABclusterArgs = ABclusterArgs(
    methy: Option<string>,
    hic: Option<string>,
    outputDir: Option<string>,
    genomeId: Option<string>,
    res: Option<string>,
    cumulant: bool,
    impute: bool)

  const StandardScript := "/utilities/single-cell/standard_pipeline/single_cell_pipeline.sh"
  const CumulantScript := "/utilities/single-cell/cumulant_pipeline/single_cell_pipeline_cumulant.sh"
  const ImputeScript := "/utilities/single-cell/impute_pipeline/single_cell_pipeline_impute.sh"

  /** One optional entry of the update map. */
  function Entry(key: string, arg: Option<string>): seq<ConfigFile.Update> {
    if Supplied(arg) then [ConfigFile.Update(key, arg.value)] else []
  }

  /** The `updates` dict, in insertion order: at most one entry per option,
      and empty iff no option is supplied. */
  function ConfigUpdates(args: ABclusterArgs): (updates: seq<ConfigFile.Update>)
    ensures |updates| <= 5
    ensures updates == [] <==>
      !Supplied(args.methy) && !Supplied(args.hic) && !Supplied(args.outputDir)
      && !Supplied(args.genomeId) && !Supplied(args.res)
  {
    Entry("methy_directory", args.methy)
    + Entry("bam_directory", args.hic)
    + Entry("output_directory", args.outputDir)
    + Entry("reference_genome", args.genomeId)
    + Entry("resolutions", args.res)
  }

  /** The script `ABcluster` runs, by strict priority: `-cumulant` beats
      `-impute`, which beats the default. */
  function ChosenScript(args: ABclusterArgs): (script: string)
    ensures script == CumulantScript <==> args.cumulant
    ensures script == ImputeScript <==> !args.cumulant && args.impute
    ensures script == StandardScript <==> !args.cumulant && !args.impute
  {
    assert |CumulantScript| == 73 && |ImputeScript| == 69 && |StandardScript| == 64;
    if args.cumulant then CumulantScript
    else if args.impute then ImputeScript
    else StandardScript
  }

  /** What `ABcluster` does: the config lines it writes back (None when it
      leaves the file alone) and the script it runs. */
  datatype ABclusterRun = ABclusterRun(rewritten: Option<seq<string>>, script: string)

  method ABcluster(args: ABclusterArgs, configLines: seq<string>) returns (run: ABclusterRun)
    ensures run.rewritten.None? <==> ConfigUpdates(args) == []
    ensures run.rewritten.Some? ==>
      |run.rewritten.value| == |configLines|
      && forall i :: 0 <= i < |configLines| ==>
           run.rewritten.value[i] == ConfigFile.RewriteLine(configLines[i], ConfigUpdates(args))
    ensures run.script == ChosenScript(args)
  {
    var updates := ConfigUpdates(args);
    var rewritten := None;
    if updates != [] {
      var lines := ConfigFile.UpdateConfigFile(configLines, updates);
      rewritten := Some(lines);
    }
    run := ABclusterRun(rewritten, ChosenScript(args));
  }

  /** The dict holds `key` with the option's value when the option is
      supplied, and no entry for `key` otherwise. */
  predicate Carries(updates: seq<ConfigFile.Update>, key: string, arg: Option<string>) {
    (Supplied(arg) ==> ConfigFile.Update(key, arg.value) in updates)
    && (!Supplied(arg) ==> forall u :: u in updates ==> u.key != key)
  }

  /** An update is in the dict iff it is one of the five optional entries. */
  lemma ConfigUpdatesMembership(args: ABclusterArgs, u: ConfigFile.Update)
    ensures u in ConfigUpdates(args) <==>
      u in Entry("methy_directory", args.methy) || u in Entry("bam_directory", args.hic)
      || u in Entry("output_directory", args.outputDir) || u in Entry("reference_genome", args.genomeId)
      || u in Entry("resolutions", args.res)
  {
  }

  /** Every key of the dict is one of the five config names. */
  lemma ConfigUpdatesKeys(args: ABclusterArgs)
    ensures forall u :: u in ConfigUpdates(args) ==>
      u.key in {"methy_directory", "bam_directory", "output_directory", "reference_genome", "resolutions"}
  {
    forall u | u in ConfigUpdates(args)
      ensures u.key in {"methy_directory", "bam_directory", "output_directory", "reference_genome", "resolutions"}
    {
      ConfigUpdatesMembership(args, u);
    }
  }

  /** The fixed option-to-config-name mapping: one entry per supplied option,
      with its value, and no other keys. */
  lemma ConfigUpdatesContents(args: ABclusterArgs)
    ensures Carries(ConfigUpdates(args), "methy_directory", args.methy)
    ensures Carries(ConfigUpdates(args), "bam_directory", args.hic)
    ensures Carries(ConfigUpdates(args), "output_directory", args.outputDir)
    ensures Carries(ConfigUpdates(args), "reference_genome", args.genomeId)
    ensures Carries(ConfigUpdates(args), "resolutions", args.res)
    ensures |ConfigUpdates(args)| ==
      (if Supplied(args.methy) then 1 else 0) + (if Supplied(args.hic) then 1 else 0)
      + (if Supplied(args.outputDir) then 1 else 0) + (if Supplied(args.genomeId) then 1 else 0)
      + (if Supplied(args.res) then 1 else 0)
    ensures forall u :: u in ConfigUpdates(args) ==>
      u.key in {"methy_directory", "bam_directory", "output_directory", "reference_genome", "resolutions"}
  {
    var m, b, o, g, r := "methy_directory", "bam_directory", "output_directory", "reference_genome", "resolutions";
    assert m[0] == 'm' && b[0] == 'b' && o[0] == 'o' && g[2] == 'f' && r[2] == 's';
    assert |m| == 15 && |b| == 13 && |r| == 11 && |o| == 16 && |g| == 16;
    ConfigUpdatesKeys(args);
  }

  /** Joining two key-disjoint well-formed dicts gives a well-formed one. */
  lemma AppendWellFormed(us1: seq<ConfigFile.Update>, us2: seq<ConfigFile.Update>)
    requires ConfigFile.WellFormedKeys(us1) && ConfigFile.WellFormedKeys(us2)
    requires forall u1, u2 :: u1 in us1 && u2 in us2 ==> u1.key != u2.key
    ensures ConfigFile.WellFormedKeys(us1 + us2)
  {
    var us := us1 + us2;
    forall i, j | 0 <= i < j < |us|
      ensures us[i].key != us[j].key
    {
      if j < |us1| {
        assert us[i] == us1[i] && us[j] == us1[j];
      } else if i >= |us1| {
        assert us[i] == us2[i - |us1|] && us[j] == us2[j - |us1|];
      } else {
        assert us[i] == us1[i] && us[j] == us2[j - |us1|];
      }
    }
    forall i | 0 <= i < |us|
      ensures ' ' !in us[i].key
    {
      if i < |us1| {
        assert us[i] == us1[i];
      } else {
        assert us[i] == us2[i - |us1|];
      }
    }
  }

  /** Every key of the dict is one of `keys`. */
  predicate KeysIn(updates: seq<ConfigFile.Update>, keys: set<string>) {
    forall u :: u in updates ==> u.key in keys
  }

  /** A single optional entry is a well-formed dict over its own key. */
  lemma EntryWellFormed(key: string, arg: Option<string>)
    requires ' ' !in key
    ensures ConfigFile.WellFormedKeys(Entry(key, arg))
    ensures KeysIn(Entry(key, arg), {key})
  {
  }

  /** Extending a well-formed dict by an entry whose key it lacks. */
  lemma ExtendWellFormed(us: seq<ConfigFile.Update>, keys: set<string>, key: string, arg: Option<string>)
    requires ConfigFile.WellFormedKeys(us) && KeysIn(us, keys)
    requires ' ' !in key && key !in keys
    ensures ConfigFile.WellFormedKeys(us + Entry(key, arg))
    ensures KeysIn(us + Entry(key, arg), keys + {key})
  {
    EntryWellFormed(key, arg);
    AppendWellFormed(us, Entry(key, arg));
  }

  /** The five config names are distinct and contain no space, so the update
      map always meets the condition under which a matched line is replaced
      exactly. */
  lemma ConfigUpdatesWellFormed(args: ABclusterArgs)
    ensures ConfigFile.WellFormedKeys(ConfigUpdates(args))
  {
    var m, b, o, g, r := "methy_directory", "bam_directory", "output_directory", "reference_genome", "resolutions";
    assert m[0] == 'm' && b[0] == 'b' && o[0] == 'o' && g[2] == 'f' && r[2] == 's';
    assert |m| == 15 && |b| == 13 && |r| == 11 && |o| == 16 && |g| == 16;
    EntryWellFormed(m, args.methy);
    var p1 := Entry(m, args.methy);
    ExtendWellFormed(p1, {m}, b, args.hic);
    var p2 := p1 + Entry(b, args.hic);
    ExtendWellFormed(p2, {m, b}, o, args.outputDir);
    var p3 := p2 + Entry(o, args.outputDir);
    ExtendWellFormed(p3, {m, b, o}, g, args.genomeId);
    var p4 := p3 + Entry(g, args.genomeId);
    ExtendWellFormed(p4, {m, b, o, g}, r, args.res);
  }

  /** End to end: when `--hic` is given, every config line assigning
      `bam_directory` is rewritten to point at it, and the same for the other
      four options. */
  lemma ABclusterRewritesSuppliedOption(args: ABclusterArgs, line: string, u: ConfigFile.Update)
    requires u in ConfigUpdates(args)
    requires ConfigFile.Assigns(line, u.key)
    ensures ConfigFile.RewriteLine(line, ConfigUpdates(args)) == ConfigFile.Assignment(u)
  {
    ConfigUpdatesWellFormed(args);
    var i :| 0 <= i < |ConfigUpdates(args)| && ConfigUpdates(args)[i] == u;
    ConfigFile.MatchedLineReplaced(line, ConfigUpdates(args), i);
  }

  // ------------------------------------------------- differentiate_chromosomes

  datatype DiffchromArgs = DiffchromArgs(
    hicFile: Option<string>,
    epigeneticFile: Option<string>,
    outputDir: Option<string>)

  /** The three values the subcommand settles on. */
  datatype DiffchromSettings = DiffchromSettings(
    hicFile: string,
    epigeneticFile: Option<string>,
    outputDir: string)

  /** The options, falling back to the config dict; a missing config key is
      the `KeyError` it raises, named by the failure. The Hi-C fallback is
      looked up first. */
  function Diffchrom(args: DiffchromArgs, config: map<string, string>): (r: Result<DiffchromSettings, string>)
    ensures r.Success? <==>
      (Supplied(args.hicFile) || "bam_directory" in config)
      && (Supplied(args.outputDir) || "output_directory" in config)
    ensures r.Failure? ==>
      r.error !in config
      && (r.error == "bam_directory" ==> !Supplied(args.hicFile))
      && (r.error == "output_directory" ==>
            !Supplied(args.outputDir) && (Supplied(args.hicFile) || "bam_directory" in config))
      && (r.error == "bam_directory" || r.error == "output_directory")
  {
    if !Supplied(args.hicFile) && "bam_directory" !in config then Failure("bam_directory")
    else
      var hicFile := if Supplied(args.hicFile) then args.hicFile.value else config["bam_directory"];
      var epigeneticFile := if Supplied(args.epigeneticFile) then args.epigeneticFile else None;
      if !Supplied(args.outputDir) && "output_directory" !in config then Failure("output_directory")
      else
        var outputDir := if Supplied(args.outputDir) then args.outputDir.value else config["output_directory"];
        Success(DiffchromSettings(hicFile, epigeneticFile, outputDir))
  }

  /** Every setting is the supplied option when there is one and the config
      default otherwise; the epigenetic file has no default. */
  lemma DiffchromDefaults(args: DiffchromArgs, config: map<string, string>)
    ensures Diffchrom(args, config).Success? ==>
      var s := Diffchrom(args, config).value;
      (Supplied(args.hicFile) ==> s.hicFile == args.hicFile.value)
      && (!Supplied(args.hicFile) ==> s.hicFile == config["bam_directory"])
      && (Supplied(args.outputDir) ==> s.outputDir == args.outputDir.value)
      && (!Supplied(args.outputDir) ==> s.outputDir == config["output_directory"])
      && (s.epigeneticFile.Some? <==> Supplied(args.epigeneticFile))
      && (s.epigeneticFile.Some? ==> s.epigeneticFile.value == args.epigeneticFile.value)
  {
  }

  // --------------------------------------------------------------- preprocess

  datatype PreprocessArgs = PreprocessArgs(
    nomehic: bool,
    m3C: bool,
    inputDir: string,
    outputDir: string,
    refGenome: string)

  /** `os.path.join(a, b)` on POSIX: an absolute `b` replaces `a`; otherwise
      a separator is inserted unless `a` is empty or already ends in one. */
  function PathJoin(a: string, b: string): (r: string)
    ensures |r| >= |b| && r[|r| - |b|..] == b
    ensures |b| > 0 && b[0] == '/' ==> r == b
    ensures !(|b| > 0 && b[0] == '/') ==>
      |r| == |a| + |b| + (if a == [] || a[|a| - 1] == '/' then 0 else 1)
      && r[..|a|] == a
      && (a != [] ==> r[|r| - |b| - 1] == '/')
  {
    if |b| > 0 && b[0] == '/' then b
    else if a == [] || a[|a| - 1] == '/' then a + b
    else a + "/" + b
  }

  /** The script for the chosen technique: nomehic wins when both flags are set. */
  function PreprocessScript(args: PreprocessArgs): (script: string)
    ensures script == "nomehic_preprocess.sh" <==> args.nomehic
    ensures script == "m3C_preprocess.sh" <==> !args.nomehic
    ensures script != [] && script[0] != '/' && ' ' !in script
  {
    assert "nomehic_preprocess.sh"[0] != "m3C_preprocess.sh"[0];
    if args.nomehic then "nomehic_preprocess.sh" else "m3C_preprocess.sh"
  }

  /** `os.path.join(script_dir, 'utilities', 'single-cell', script)` */
  function PreprocessScriptPath(scriptDir: string, args: PreprocessArgs): string {
    PathJoin(PathJoin(PathJoin(scriptDir, "utilities"), "single-cell"), PreprocessScript(args))
  }

  /** The command line `{path} --input {in} --output {out} --ref_genome {ref}`. */
  function CommandLine(path: string, input: string, output: string, ref: string): (command: string)
    ensures path <= command
    ensures |command| == |path| + |input| + |output| + |ref| + 33
    ensures ref <= command[|command| - |ref|..]
  {
    path + " --input " + input + " --output " + output + " --ref_genome " + ref
  }

  /** The shell command, or exit status 1 when neither technique flag is set. */
  function Preprocess(scriptDir: string, args: PreprocessArgs): (r: Result<string, int>)
    ensures r.Failure? <==> !args.nomehic && !args.m3C
    ensures r.Failure? ==> r.error == 1
    ensures r.Success? ==> PreprocessScriptPath(scriptDir, args) <= r.value
  {
    if !args.nomehic && !args.m3C then Failure(1)
    else
      Success(CommandLine(PreprocessScriptPath(scriptDir, args), args.inputDir, args.outputDir, args.refGenome))
  }

  /** Joining a relative, non-empty name onto a directory: a separator is
      added iff the directory does not already end in one. */
  lemma JoinRelative(dir: string, name: string)
    requires dir != [] && name != [] && name[0] != '/'
    ensures dir[|dir| - 1] != '/' ==> PathJoin(dir, name) == dir + "/" + name
    ensures dir[|dir| - 1] == '/' ==> PathJoin(dir, name) == dir + name
    ensures PathJoin(dir, name)[|PathJoin(dir, name)| - 1] == name[|name| - 1]
  {
  }

  /** The script sits in `utilities/single-cell` below the package directory
      (which, as the directory of a resolved file, is never empty): each join
      inserts one separator, except after a directory that already ends in one. */
  lemma ScriptPathLayout(scriptDir: string, args: PreprocessArgs)
    requires scriptDir != ""
    ensures scriptDir[|scriptDir| - 1] != '/' ==>
      PreprocessScriptPath(scriptDir, args)
      == scriptDir + "/" + "utilities" + "/" + "single-cell" + "/" + PreprocessScript(args)
    ensures scriptDir[|scriptDir| - 1] == '/' ==>
      PreprocessScriptPath(scriptDir, args)
      == scriptDir + "utilities" + "/" + "single-cell" + "/" + PreprocessScript(args)
  {
    JoinRelative(scriptDir, "utilities");
    var p := PathJoin(scriptDir, "utilities");
    JoinRelative(p, "single-cell");
    JoinRelative(PathJoin(p, "single-cell"), PreprocessScript(args));
  }

  /** `str.split(' ')`: the fields between single spaces, empty ones included. */
  function Split(s: string): (fields: seq<string>)
    ensures |fields| >= 1
  {
    if s == [] then [""]
    else if s[0] == ' ' then [""] + Split(s[1..])
    else
      var rest := Split(s[1..]);
      [[s[0]] + rest[0]] + rest[1..]
  }

  /** The words joined by single spaces. */
  function Unsplit(words: seq<string>): string
    requires |words| >= 1
  {
    var n := |words| - 1;
    if n == 0 then words[0] else Unsplit(words[..n]) + " " + words[n]
  }

  /** A string without a space is a single field. */
  lemma {:induction false} SplitWord(w: string)
    requires ' ' !in w
    ensures Split(w) == [w]
  {
    if w != [] {
      assert w[0] in w;
      assert forall c :: c in w[1..] ==> c in w;
      SplitWord(w[1..]);
      assert [w[0]] + w[1..] == w;
    }
  }

  /** Appending a space and a spaceless word adds that word as a last field. */
  lemma {:induction false} SplitAppendField(a: string, w: string)
    requires ' ' !in w
    ensures Split(a + " " + w) == Split(a) + [w]
  {
    if a == [] {
      assert a + " " + w == " " + w;
      assert (" " + w)[1..] == w;
      SplitWord(w);
    } else {
      assert (a + " " + w)[0] == a[0];
      assert (a + " " + w)[1..] == a[1..] + " " + w;
      SplitAppendField(a[1..], w);
      if a[0] != ' ' {
        var rest := Split(a[1..]);
        assert (rest + [w])[0] == rest[0];
        assert (rest + [w])[1..] == rest[1..] + [w];
      }
    }
  }

  /** Joining spaceless words with single spaces and splitting again gives
      the words back. */
  lemma {:induction false} SplitUnsplit(words: seq<string>)
    requires |words| >= 1
    requires forall i :: 0 <= i < |words| ==> ' ' !in words[i]
    ensures Split(Unsplit(words)) == words
  {
    var n := |words| - 1;
    if n == 0 {
      SplitWord(words[0]);
    } else {
      assert forall i :: 0 <= i < n ==> words[..n][i] == words[i];
      SplitUnsplit(words[..n]);
      SplitAppendField(Unsplit(words[..n]), words[n]);
      assert words[..n] + [words[n]] == words;
    }
  }

  /** Seven words joined by single spaces, written out. */
  lemma UnsplitSeven(w0: string, w1: string, w2: string, w3: string, w4: string, w5: string, w6: string)
    ensures Unsplit([w0, w1, w2, w3, w4, w5, w6])
            == w0 + " " + w1 + " " + w2 + " " + w3 + " " + w4 + " " + w5 + " " + w6
  {
    assert [w0, w1][..1] == [w0];
    assert Unsplit([w0, w1]) == w0 + " " + w1;
    assert [w0, w1, w2][..2] == [w0, w1];
    assert Unsplit([w0, w1, w2]) == w0 + " " + w1 + " " + w2;
    assert [w0, w1, w2, w3][..3] == [w0, w1, w2];
    assert Unsplit([w0, w1, w2, w3]) == w0 + " " + w1 + " " + w2 + " " + w3;
    assert [w0, w1, w2, w3, w4][..4] == [w0, w1, w2, w3];
    assert Unsplit([w0, w1, w2, w3, w4]) == w0 + " " + w1 + " " + w2 + " " + w3 + " " + w4;
    assert [w0, w1, w2, w3, w4, w5][..5] == [w0, w1, w2, w3, w4];
    assert Unsplit([w0, w1, w2, w3, w4, w5]) == w0 + " " + w1 + " " + w2 + " " + w3 + " " + w4 + " " + w5;
    assert [w0, w1, w2, w3, w4, w5, w6][..6] == [w0, w1, w2, w3, w4, w5];
  }

  /** With spaceless parts, the command line splits into the script and the
      three option/value pairs. */
  lemma CommandLineWords(path: string, input: string, output: string, ref: string)
    requires ' ' !in path && ' ' !in input && ' ' !in output && ' ' !in ref
    ensures Split(CommandLine(path, input, output, ref)) ==
      [path, "--input", input, "--output", output, "--ref_genome", ref]
  {
    UnsplitSeven(path, "--input", input, "--output", output, "--ref_genome", ref);
    var u1 := path + " " + "--input";
    assert u1 + " " == path + " --input ";
    var u3 := u1 + " " + input + " " + "--output";
    assert u3 + " " == path + " --input " + input + " --output ";
    var u5 := u3 + " " + output + " " + "--ref_genome";
    assert u5 + " " == path + " --input " + input + " --output " + output + " --ref_genome ";
    SplitUnsplit([path, "--input", input, "--output", output, "--ref_genome", ref]);
  }

  /** When the paths and the genome name contain no space, the command
      `preprocess` runs is the script followed by the three option/value pairs. */
  lemma PreprocessCommandWords(scriptDir: string, args: PreprocessArgs)
    requires args.nomehic || args.m3C
    requires ' ' !in PreprocessScriptPath(scriptDir, args)
    requires ' ' !in args.inputDir && ' ' !in args.outputDir && ' ' !in args.refGenome
    ensures Preprocess(scriptDir, args).Success?
    ensures Split(Preprocess(scriptDir, args).value) ==
      [PreprocessScriptPath(scriptDir, args), "--input", args.inputDir,
       "--output", args.outputDir, "--ref_genome", args.refGenome]
  {
    CommandLineWords(PreprocessScriptPath(scriptDir, args), args.inputDir, args.outputDir, args.refGenome);
  }
}

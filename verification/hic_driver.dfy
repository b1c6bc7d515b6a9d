/** The batch driver `process_hic_files` of utilities/process_hic_files.py.
    File reads, `np.corrcoef` and the HDF5 writes are oracles held in an
    Environment; the driver returns the sequence of events it produces:
    failures it reports and writes it attempts. */
module HicDriver {
  import opened Wrappers
  import opened Matrices
  import DarkBins
  import Cumulant

  /** One (resolution, chromosome, data type) combination of the batch. */
  datatype Key = Key(resolution: string, chromosome: string, dataType: string)

  /** The part of every file name the key's resolution and chromosome fix. */
  function BinPrefix(path: string, key: Key): string {
    path + "Workspaces/individual/ch" + key.chromosome + "_res" + key.resolution
  }

  /** The part of the matrix and output file names the whole key fixes. */
  function MatrixStem(path: string, key: Key): string {
    BinPrefix(path, key) + "_" + key.dataType + "_KR"
  }

  /** `ch{chromosome}_res{resolution}_{data_type}_KR.h5` */
  function MatrixPath(path: string, key: Key): string {
    MatrixStem(path, key) + ".h5"
  }

  /** `ch{chromosome}_res{resolution}_darkBins.h5` */
  function DarkBinsPath(path: string, key: Key): string {
    BinPrefix(path, key) + "_darkBins.h5"
  }

  /** `ch{chromosome}_res{resolution}_{data_type}_KR_corr.h5` */
  function CorrelationPath(path: string, key: Key): string {
    MatrixStem(path, key) + "_corr.h5"
  }

  /** `ch{chromosome}_res{resolution}_{data_type}_KR_cumulant.h5` */
  function CumulantPath(path: string, key: Key): string {
    MatrixStem(path, key) + "_cumulant.h5"
  }

  /** What a write stores. */
  datatype Artifact = CorrelationMatrix(matrix: Matrix<real>) | DegreeTwoCumulant(tensor: Tensor3)

  /** What the driver does that can be observed: a reported failure or an attempted write. */
  datatype Event =
    | LoadFailed(path: string)
    | FilterFailed
    | CorrelationFailed
    | CumulantFailed
    | Saved(path: string, dataset: string, artifact: Artifact)
    | SaveFailed(path: string, dataset: string)

  /** The world outside the driver: the two loaders (None for any read error),
      `np.corrcoef` (None when it raises), whether the cumulant computation of
      a matrix completes (false when, say, allocating the n x n x n tensor
      raises), whether a file can be written, and `np.sqrt`. */
  datatype Environment = Environment(
    loadMatrix: string -> Option<Matrix<real>>,
    loadDarkBins: string -> Option<seq<int>>,
    corrcoef: Matrix<real> -> Option<Matrix<real>>,
    cumulantFits: Matrix<real> -> bool,
    canWrite: string -> bool,
    sqrt: real -> real)

  /** `compute_degree_2_cumulant`: the n x n x n tensor of the formula, or
      None when the computation raises. */
  function ComputeCumulant(env: Environment, filtered: Matrix<real>): (r: Option<Tensor3>)
    ensures r.Some? <==> env.cumulantFits(filtered)
    ensures r.Some? ==> r.value == Cumulant.CumulantTensor(env.sqrt, filtered)
    ensures r.Some? ==> |r.value| == |filtered.rows|
  {
    if env.cumulantFits(filtered) then Some(Cumulant.CumulantTensor(env.sqrt, filtered)) else None
  }

  /** One guarded HDF5 write: saved, or its exception reported. */
  function Write(env: Environment, file: string, dataset: string, artifact: Artifact): Event {
    if env.canWrite(file) then Saved(file, dataset, artifact) else SaveFailed(file, dataset)
  }

  /** The matrix a key's computations start from: present only when both
      loads and the filter succeed. */
  function FilteredInput(env: Environment, path: string, key: Key): Option<Matrix<real>> {
    var hic := env.loadMatrix(MatrixPath(path, key));
    var dark := env.loadDarkBins(DarkBinsPath(path, key));
    if hic.Some? && dark.Some? then DarkBins.RemoveDarkBins(hic.value, dark.value) else None
  }

  /** The loop body for one key: load both inputs (both loads are always
      attempted), stop unless both arrived, filter, stop unless that
      succeeded, compute the correlation and the cumulant (each reporting its
      own failure), then attempt the write of each result that exists. A key
      yields one or two events, each naming only this key's own files. */
  function ProcessKey(env: Environment, path: string, key: Key): (events: seq<Event>)
    ensures 1 <= |events| <= 2
    ensures forall e :: e in events ==> OwnEvent(path, key, e)
  {
    var matrixFile := MatrixPath(path, key);
    var darkFile := DarkBinsPath(path, key);
    var hic := env.loadMatrix(matrixFile);
    var dark := env.loadDarkBins(darkFile);
    if hic.None? || dark.None? then
      (if hic.None? then [LoadFailed(matrixFile)] else [])
      + (if dark.None? then [LoadFailed(darkFile)] else [])
    else
      match FilteredInput(env, path, key)
      case None => [FilterFailed]
      case Some(filtered) =>
        var correlation := env.corrcoef(filtered);
        var cumulant := ComputeCumulant(env, filtered);
        Reports(correlation, cumulant) + Attempts(env, path, key, correlation, cumulant)
  }

  /** An event that names, if any file, one of the key's own: a load failure
      names one of its two inputs, a write one of its two outputs. */
  predicate OwnEvent(path: string, key: Key, e: Event) {
    (e.LoadFailed? ==> e.path == MatrixPath(path, key) || e.path == DarkBinsPath(path, key))
    && (e.Saved? || e.SaveFailed? ==> e.path == CorrelationPath(path, key) || e.path == CumulantPath(path, key))
  }

  /** The failures of the two computations, reported before any write. */
  function Reports(correlation: Option<Matrix<real>>, cumulant: Option<Tensor3>): (events: seq<Event>)
    ensures CorrelationFailed in events <==> correlation.None?
    ensures CumulantFailed in events <==> cumulant.None?
    ensures forall e :: e in events ==> e == CorrelationFailed || e == CumulantFailed
    ensures |events| == (if correlation.None? then 1 else 0) + (if cumulant.None? then 1 else 0)
    ensures Writes(events) == []
  {
    (if correlation.None? then [CorrelationFailed] else [])
    + (if cumulant.None? then [CumulantFailed] else [])
  }

  /** The writes of the results that exist: the correlation matrix, then the cumulant. */
  function Attempts(env: Environment, path: string, key: Key,
                    correlation: Option<Matrix<real>>, cumulant: Option<Tensor3>): (events: seq<Event>)
    ensures Writes(events) == events
    ensures forall e :: e in events ==>
      (e.Saved? || e.SaveFailed?) && (e.path == CorrelationPath(path, key) || e.path == CumulantPath(path, key))
    ensures |events| == (if correlation.Some? then 1 else 0) + (if cumulant.Some? then 1 else 0)
  {
    (if correlation.Some?
     then [Write(env, CorrelationPath(path, key), "correlation_matrix", CorrelationMatrix(correlation.value))]
     else [])
    + (if cumulant.Some?
       then [Write(env, CumulantPath(path, key), "degree_2_cumulant", DegreeTwoCumulant(cumulant.value))]
       else [])
  }

  /** The write attempts of a trace, in order. */
  function Writes(trace: seq<Event>): (w: seq<Event>)
    ensures |w| <= |trace|
    ensures forall e :: e in w ==> e in trace && (e.Saved? || e.SaveFailed?)
  {
    if trace == [] then []
    else (if trace[0].Saved? || trace[0].SaveFailed? then [trace[0]] else []) + Writes(trace[1..])
  }

  /** The write attempts of a trace split at any point are those of the two halves. */
  lemma {:induction false} WritesAppend(t1: seq<Event>, t2: seq<Event>)
    ensures Writes(t1 + t2) == Writes(t1) + Writes(t2)
  {
    if t1 != [] {
      var head: seq<Event> := if t1[0].Saved? || t1[0].SaveFailed? then [t1[0]] else [];
      assert (t1 + t2)[0] == t1[0];
      assert (t1 + t2)[1..] == t1[1..] + t2;
      WritesAppend(t1[1..], t2);
      calc {
        Writes(t1 + t2);
        head + Writes(t1[1..] + t2);
        head + (Writes(t1[1..]) + Writes(t2));
        (head + Writes(t1[1..])) + Writes(t2);
        Writes(t1) + Writes(t2);
      }
    } else {
      assert t1 + t2 == t2;
    }
  }

  /** A key writes nothing unless both loads and the filter succeed. When
      they do, the two writes are independent: the correlation write is
      attempted iff `np.corrcoef` returned a value, whatever happened to the
      cumulant, and the write of the filtered matrix's cumulant tensor is
      attempted iff that computation completed, whatever happened to the
      correlation; the correlation write comes first. */
  lemma ProcessKeyWrites(env: Environment, path: string, key: Key)
    ensures FilteredInput(env, path, key).None? ==> Writes(ProcessKey(env, path, key)) == []
    ensures FilteredInput(env, path, key).Some? ==>
      var filtered := FilteredInput(env, path, key).value;
      var correlation := env.corrcoef(filtered);
      Writes(ProcessKey(env, path, key)) ==
        (if correlation.Some?
         then [Write(env, CorrelationPath(path, key), "correlation_matrix", CorrelationMatrix(correlation.value))]
         else [])
        + (if env.cumulantFits(filtered)
           then [Write(env, CumulantPath(path, key), "degree_2_cumulant",
                       DegreeTwoCumulant(Cumulant.CumulantTensor(env.sqrt, filtered)))]
           else [])
  {
    var hic := env.loadMatrix(MatrixPath(path, key));
    var dark := env.loadDarkBins(DarkBinsPath(path, key));
    if hic.None? || dark.None? {
      var t1: seq<Event> := if hic.None? then [LoadFailed(MatrixPath(path, key))] else [];
      var t2: seq<Event> := if dark.None? then [LoadFailed(DarkBinsPath(path, key))] else [];
      WritesAppend(t1, t2);
    } else if FilteredInput(env, path, key).Some? {
      var filtered := FilteredInput(env, path, key).value;
      var correlation := env.corrcoef(filtered);
      var cumulant := ComputeCumulant(env, filtered);
      ProcessKeyFiltered(env, path, key);
      WritesAppend(Reports(correlation, cumulant), Attempts(env, path, key, correlation, cumulant));
    }
  }

  /** A key yields one or two load failures, or the filter failure alone, or
      exactly two events once the filter succeeds: each computation either
      reports its failure or gets a write attempt. */
  lemma ProcessKeyShape(env: Environment, path: string, key: Key)
    ensures FilteredInput(env, path, key).Some? ==> |ProcessKey(env, path, key)| == 2
    ensures FilterFailed in ProcessKey(env, path, key) <==>
      env.loadMatrix(MatrixPath(path, key)).Some? && env.loadDarkBins(DarkBinsPath(path, key)).Some?
      && FilteredInput(env, path, key).None?
    ensures FilterFailed in ProcessKey(env, path, key) ==> ProcessKey(env, path, key) == [FilterFailed]
  {
    var hic := env.loadMatrix(MatrixPath(path, key));
    var dark := env.loadDarkBins(DarkBinsPath(path, key));
    if hic.None? || dark.None? {
      assert forall e :: e in ProcessKey(env, path, key) ==> e.LoadFailed?;
    } else if FilteredInput(env, path, key).Some? {
      var filtered := FilteredInput(env, path, key).value;
      ProcessKeyFiltered(env, path, key);
      ReportsThenAttempts(env, path, key, env.corrcoef(filtered), ComputeCumulant(env, filtered));
    }
  }

  /** Each computation reports its own failure: after a successful filter,
      `CorrelationFailed` appears iff `np.corrcoef` failed and `CumulantFailed`
      iff the cumulant computation did, each at most once. */
  lemma ComputationFailuresReported(env: Environment, path: string, key: Key)
    requires FilteredInput(env, path, key).Some?
    ensures CorrelationFailed in ProcessKey(env, path, key)
            <==> env.corrcoef(FilteredInput(env, path, key).value).None?
    ensures CumulantFailed in ProcessKey(env, path, key)
            <==> !env.cumulantFits(FilteredInput(env, path, key).value)
    ensures forall e :: e in ProcessKey(env, path, key) ==> !e.LoadFailed? && !e.FilterFailed?
  {
    var filtered := FilteredInput(env, path, key).value;
    ProcessKeyFiltered(env, path, key);
    ReportsThenAttempts(env, path, key, env.corrcoef(filtered), ComputeCumulant(env, filtered));
  }

  /** The events after a successful filter hold each failure report iff its
      computation failed, and no load or filter failure. */
  lemma ReportsThenAttempts(env: Environment, path: string, key: Key,
                            correlation: Option<Matrix<real>>, cumulant: Option<Tensor3>)
    ensures var events := Reports(correlation, cumulant) + Attempts(env, path, key, correlation, cumulant);
      && (CorrelationFailed in events <==> correlation.None?)
      && (CumulantFailed in events <==> cumulant.None?)
      && forall e :: e in events ==> !e.LoadFailed? && !e.FilterFailed?
  {
    var reports, attempts := Reports(correlation, cumulant), Attempts(env, path, key, correlation, cumulant);
    assert CorrelationFailed !in attempts && CumulantFailed !in attempts;
  }

  /** After a successful filter a key's events are the computations' failure
      reports followed by the write attempts. */
  lemma ProcessKeyFiltered(env: Environment, path: string, key: Key)
    requires FilteredInput(env, path, key).Some?
    ensures var filtered := FilteredInput(env, path, key).value;
      ProcessKey(env, path, key)
      == Reports(env.corrcoef(filtered), ComputeCumulant(env, filtered))
         + Attempts(env, path, key, env.corrcoef(filtered), ComputeCumulant(env, filtered))
  {
  }

  /** Each failed load is reported once, with its file, and nothing else happens for the key. */
  lemma LoadFailuresReported(env: Environment, path: string, key: Key)
    requires env.loadMatrix(MatrixPath(path, key)).None? || env.loadDarkBins(DarkBinsPath(path, key)).None?
    ensures forall e :: e in ProcessKey(env, path, key) ==> e.LoadFailed?
    ensures LoadFailed(MatrixPath(path, key)) in ProcessKey(env, path, key)
            <==> env.loadMatrix(MatrixPath(path, key)).None?
    ensures LoadFailed(DarkBinsPath(path, key)) in ProcessKey(env, path, key)
            <==> env.loadDarkBins(DarkBinsPath(path, key)).None?
    ensures |ProcessKey(env, path, key)| ==
            (if env.loadMatrix(MatrixPath(path, key)).None? then 1 else 0)
            + (if env.loadDarkBins(DarkBinsPath(path, key)).None? then 1 else 0)
  {
    PathsDistinct(path, key);
  }

  /** The four files of a key are pairwise distinct, so no write can replace
      one of the key's own inputs or the other output. */
  lemma PathsDistinct(path: string, key: Key)
    ensures MatrixPath(path, key) != DarkBinsPath(path, key)
    ensures MatrixPath(path, key) != CorrelationPath(path, key)
    ensures MatrixPath(path, key) != CumulantPath(path, key)
    ensures DarkBinsPath(path, key) != CorrelationPath(path, key)
    ensures DarkBinsPath(path, key) != CumulantPath(path, key)
    ensures CorrelationPath(path, key) != CumulantPath(path, key)
  {
    var m, d, c, k := MatrixPath(path, key), DarkBinsPath(path, key), CorrelationPath(path, key), CumulantPath(path, key);
    assert m[|m| - 4] == 'R';
    assert d[|d| - 4] == 's';
    assert c[|c| - 4] == 'r';
    assert k[|k| - 4] == 't';
  }

  /** No key's output file is any key's input file, so a write never changes
      what a later load of the batch reads: the loaders may be modelled as
      fixed functions of the file name. */
  lemma OutputsNeverInputs(path: string, k1: Key, k2: Key)
    ensures CorrelationPath(path, k1) != MatrixPath(path, k2)
    ensures CorrelationPath(path, k1) != DarkBinsPath(path, k2)
    ensures CumulantPath(path, k1) != MatrixPath(path, k2)
    ensures CumulantPath(path, k1) != DarkBinsPath(path, k2)
  {
    var c, k := CorrelationPath(path, k1), CumulantPath(path, k1);
    var m, d := MatrixPath(path, k2), DarkBinsPath(path, k2);
    assert m[|m| - 4] == 'R';
    assert d[|d| - 4] == 's';
    assert c[|c| - 4] == 'r';
    assert k[|k| - 4] == 't';
  }

  /** Every data type of one resolution and chromosome reads the same dark-bin file. */
  lemma DarkBinsShared(path: string, key1: Key, key2: Key)
    requires key1.resolution == key2.resolution && key1.chromosome == key2.chromosome
    ensures DarkBinsPath(path, key1) == DarkBinsPath(path, key2)
  {
  }

  /** A key's events depend only on what the store answers for that key's
      own files: changing the loaders or the writability of any other file
      leaves them as they were. */
  lemma ProcessKeyLocal(env: Environment, path: string, key: Key,
                        loadMatrix: string -> Option<Matrix<real>>,
                        loadDarkBins: string -> Option<seq<int>>,
                        canWrite: string -> bool)
    requires loadMatrix(MatrixPath(path, key)) == env.loadMatrix(MatrixPath(path, key))
    requires loadDarkBins(DarkBinsPath(path, key)) == env.loadDarkBins(DarkBinsPath(path, key))
    requires canWrite(CorrelationPath(path, key)) == env.canWrite(CorrelationPath(path, key))
    requires canWrite(CumulantPath(path, key)) == env.canWrite(CumulantPath(path, key))
    ensures ProcessKey(env.(loadMatrix := loadMatrix, loadDarkBins := loadDarkBins, canWrite := canWrite), path, key)
            == ProcessKey(env, path, key)
  {
  }

  /** The concatenation of f(x) over xs, in order. */
  function FlatMap<X, Y>(f: X -> seq<Y>, xs: seq<X>): seq<Y> {
    if xs == [] then []
    else
      var n := |xs| - 1;
      FlatMap(f, xs[..n]) + f(xs[n])
  }

  /** FlatMap over two runs is the concatenation of the FlatMaps. */
  lemma {:induction false} FlatMapAppend<X, Y>(f: X -> seq<Y>, xs1: seq<X>, xs2: seq<X>)
    ensures FlatMap(f, xs1 + xs2) == FlatMap(f, xs1) + FlatMap(f, xs2)
  {
    if xs2 != [] {
      var n := |xs2| - 1;
      var xs := xs1 + xs2;
      assert xs[..|xs| - 1] == xs1 + xs2[..n];
      assert xs[|xs| - 1] == xs2[n];
      FlatMapAppend(f, xs1, xs2[..n]);
      calc {
        FlatMap(f, xs);
        FlatMap(f, xs1 + xs2[..n]) + f(xs2[n]);
        (FlatMap(f, xs1) + FlatMap(f, xs2[..n])) + f(xs2[n]);
        FlatMap(f, xs1) + (FlatMap(f, xs2[..n]) + f(xs2[n]));
        FlatMap(f, xs1) + FlatMap(f, xs2);
      }
    } else {
      assert xs1 + xs2 == xs1;
    }
  }

  /** Index arithmetic for a block layout: block q of size `size`, offset r. */
  lemma {:induction false} BlockIndex(q: nat, r: nat, size: nat, n: nat)
    requires q < n && r < size
    ensures q * size + r < n * size
  {
    if q + 1 < n {
      BlockIndex(q, r, size, n - 1);
      assert n * size == (n - 1) * size + size;
    } else {
      assert n * size == q * size + size;
    }
  }

  /** When every block has the same size, the concatenation has |xs| blocks of it. */
  lemma {:induction false} FlatMapLength<X, Y>(f: X -> seq<Y>, xs: seq<X>, size: nat)
    requires forall x :: x in xs ==> |f(x)| == size
    ensures |FlatMap(f, xs)| == |xs| * size
  {
    if xs != [] {
      var n := |xs| - 1;
      FlatMapLength(f, xs[..n], size);
      assert xs[n] in xs;
      assert |xs| * size == n * size + size;
    }
  }

  /** When every block has the same size, element a * size + r of the
      concatenation is element r of block a. */
  lemma {:induction false} FlatMapAt<X, Y>(f: X -> seq<Y>, xs: seq<X>, size: nat, a: nat, r: nat)
    requires forall x :: x in xs ==> |f(x)| == size
    requires a < |xs| && r < size
    ensures a * size + r < |FlatMap(f, xs)|
    ensures FlatMap(f, xs)[a * size + r] == f(xs[a])[r]
  {
    var n := |xs| - 1;
    var front := FlatMap(f, xs[..n]);
    var last := f(xs[n]);
    assert forall x :: x in xs[..n] ==> x in xs;
    FlatMapLength(f, xs[..n], size);
    FlatMapLength(f, xs, size);
    assert |front| == n * size;
    assert FlatMap(f, xs) == front + last;
    if a < n {
      BlockIndex(a, r, size, n);
      FlatMapAt(f, xs[..n], size, a, r);
      assert xs[..n][a] == xs[a];
    } else {
      assert a * size + r == |front| + r;
    }
  }

  /** The keys of one resolution and chromosome, in data-type order. */
  function ChromosomeKeys(resolution: string, chromosome: string, dataTypes: seq<string>): (keys: seq<Key>)
    ensures |keys| == |dataTypes|
    ensures forall c :: 0 <= c < |keys| ==> keys[c] == Key(resolution, chromosome, dataTypes[c])
  {
    seq(|dataTypes|, c requires 0 <= c < |dataTypes| => Key(resolution, chromosome, dataTypes[c]))
  }

  /** The keys of one resolution: chromosome-major, then data type. */
  function ResolutionKeys(resolution: string, chromosomes: seq<string>, dataTypes: seq<string>): seq<Key> {
    FlatMap(c => ChromosomeKeys(resolution, c, dataTypes), chromosomes)
  }

  /** The keys of the batch, in the order of the three nested loops of `process_hic_files`. */
  function Keys(resolutions: seq<string>, chromosomes: seq<string>, dataTypes: seq<string>): seq<Key> {
    FlatMap(r => ResolutionKeys(r, chromosomes, dataTypes), resolutions)
  }

  /** The per-key step of the batch. */
  function Step(env: Environment, path: string): Key -> seq<Event> {
    key => ProcessKey(env, path, key)
  }

  /** The events of a batch: each key's events, in key order. */
  function BatchTrace(env: Environment, path: string, keys: seq<Key>): seq<Event> {
    FlatMap(Step(env, path), keys)
  }

  /** Every resolution contributes |chromosomes| * |dataTypes| keys. */
  lemma ResolutionKeysLength(resolutions: seq<string>, chromosomes: seq<string>, dataTypes: seq<string>)
    ensures forall r :: r in resolutions ==> |ResolutionKeys(r, chromosomes, dataTypes)| == |chromosomes| * |dataTypes|
  {
    forall r | r in resolutions
      ensures |ResolutionKeys(r, chromosomes, dataTypes)| == |chromosomes| * |dataTypes|
    {
      FlatMapLength(c => ChromosomeKeys(r, c, dataTypes), chromosomes, |dataTypes|);
    }
  }

  /** The batch has one key per combination. */
  lemma KeysCount(resolutions: seq<string>, chromosomes: seq<string>, dataTypes: seq<string>)
    ensures |Keys(resolutions, chromosomes, dataTypes)| == |resolutions| * (|chromosomes| * |dataTypes|)
  {
    ResolutionKeysLength(resolutions, chromosomes, dataTypes);
    FlatMapLength(r => ResolutionKeys(r, chromosomes, dataTypes), resolutions, |chromosomes| * |dataTypes|);
  }

  /** The batch visits keys resolution-major, then chromosome, then data type:
      key (a * |chromosomes| + b) * |dataTypes| + c, written here as
      a * (|chromosomes| * |dataTypes|) + (b * |dataTypes| + c), is
      (resolutions[a], chromosomes[b], dataTypes[c]). */
  lemma KeysOrder(resolutions: seq<string>, chromosomes: seq<string>, dataTypes: seq<string>, a: nat, b: nat, c: nat)
    requires a < |resolutions| && b < |chromosomes| && c < |dataTypes|
    ensures a * (|chromosomes| * |dataTypes|) + (b * |dataTypes| + c) < |Keys(resolutions, chromosomes, dataTypes)|
    ensures Keys(resolutions, chromosomes, dataTypes)[a * (|chromosomes| * |dataTypes|) + (b * |dataTypes| + c)]
            == Key(resolutions[a], chromosomes[b], dataTypes[c])
  {
    var d := |dataTypes|;
    var size := |chromosomes| * d;
    var r := resolutions[a];
    FlatMapLength(c => ChromosomeKeys(r, c, dataTypes), chromosomes, d);
    FlatMapAt(c => ChromosomeKeys(r, c, dataTypes), chromosomes, d, b, c);
    BlockIndex(b, c, d, |chromosomes|);
    ResolutionKeysLength(resolutions, chromosomes, dataTypes);
    FlatMapAt(r => ResolutionKeys(r, chromosomes, dataTypes), resolutions, size, a, b * d + c);
  }

  /** Failure isolation across the batch: the events of a key sit between
      those of the keys before and after it, whatever happened to them. */
  lemma BatchTraceSegment(env: Environment, path: string, before: seq<Key>, key: Key, after: seq<Key>)
    ensures BatchTrace(env, path, before + [key] + after)
            == BatchTrace(env, path, before) + ProcessKey(env, path, key) + BatchTrace(env, path, after)
  {
    FlatMapAppend(Step(env, path), before + [key], after);
    FlatMapAppend(Step(env, path), before, [key]);
    assert FlatMap(Step(env, path), [key]) == ProcessKey(env, path, key) by {
      assert [key][..0] == [];
    }
  }

  /** The innermost loop of `process_hic_files`: every data type of one
      resolution and chromosome, in order. */
  method ProcessDataTypes(env: Environment, path: string, resolution: string, chromosome: string,
                          dataTypes: seq<string>)
    returns (trace: seq<Event>)
    ensures trace == BatchTrace(env, path, ChromosomeKeys(resolution, chromosome, dataTypes))
  {
    var step := Step(env, path);
    trace := [];
    var c := 0;
    while c < |dataTypes|
      invariant 0 <= c <= |dataTypes|
      invariant trace == FlatMap(step, ChromosomeKeys(resolution, chromosome, dataTypes[..c]))
    {
      var key := Key(resolution, chromosome, dataTypes[c]);
      ghost var ks := ChromosomeKeys(resolution, chromosome, dataTypes[..c]);
      assert ChromosomeKeys(resolution, chromosome, dataTypes[..c + 1]) == ks + [key];
      assert (ks + [key])[..|ks|] == ks;
      trace := trace + step(key);
      c := c + 1;
    }
    assert dataTypes[..c] == dataTypes;
  }

  /** The middle loop: every chromosome of one resolution. */
  method ProcessChromosomes(env: Environment, path: string, resolution: string,
                            chromosomes: seq<string>, dataTypes: seq<string>)
    returns (trace: seq<Event>)
    ensures trace == BatchTrace(env, path, ResolutionKeys(resolution, chromosomes, dataTypes))
  {
    trace := [];
    var b := 0;
    while b < |chromosomes|
      invariant 0 <= b <= |chromosomes|
      invariant trace == BatchTrace(env, path, ResolutionKeys(resolution, chromosomes[..b], dataTypes))
    {
      var events := ProcessDataTypes(env, path, resolution, chromosomes[b], dataTypes);
      ResolutionKeysStep(resolution, chromosomes, dataTypes, b);
      FlatMapAppend(Step(env, path), ResolutionKeys(resolution, chromosomes[..b], dataTypes),
                    ChromosomeKeys(resolution, chromosomes[b], dataTypes));
      trace := trace + events;
      b := b + 1;
    }
    assert chromosomes[..b] == chromosomes;
  }

  /** `process_hic_files`: the three nested loops over resolutions,
      chromosomes and data types, each key handled by ProcessKey. */
  method ProcessHicFiles(env: Environment, path: string, resolutions: seq<string>,
                         chromosomes: seq<string>, dataTypes: seq<string>)
    returns (trace: seq<Event>)
    ensures trace == BatchTrace(env, path, Keys(resolutions, chromosomes, dataTypes))
  {
    trace := [];
    var a := 0;
    while a < |resolutions|
      invariant 0 <= a <= |resolutions|
      invariant trace == BatchTrace(env, path, Keys(resolutions[..a], chromosomes, dataTypes))
    {
      var events := ProcessChromosomes(env, path, resolutions[a], chromosomes, dataTypes);
      KeysStep(resolutions, chromosomes, dataTypes, a);
      FlatMapAppend(Step(env, path), Keys(resolutions[..a], chromosomes, dataTypes),
                    ResolutionKeys(resolutions[a], chromosomes, dataTypes));
      trace := trace + events;
      a := a + 1;
    }
    assert resolutions[..a] == resolutions;
  }

  /** Extending the chromosome prefix by one appends that chromosome's keys. */
  lemma ResolutionKeysStep(resolution: string, chromosomes: seq<string>, dataTypes: seq<string>, b: nat)
    requires b < |chromosomes|
    ensures ResolutionKeys(resolution, chromosomes[..b + 1], dataTypes)
            == ResolutionKeys(resolution, chromosomes[..b], dataTypes) + ChromosomeKeys(resolution, chromosomes[b], dataTypes)
  {
    assert chromosomes[..b + 1][..b] == chromosomes[..b];
  }

  /** Extending the resolution prefix by one appends that resolution's keys. */
  lemma KeysStep(resolutions: seq<string>, chromosomes: seq<string>, dataTypes: seq<string>, a: nat)
    requires a < |resolutions|
    ensures Keys(resolutions[..a + 1], chromosomes, dataTypes)
            == Keys(resolutions[..a], chromosomes, dataTypes) + ResolutionKeys(resolutions[a], chromosomes, dataTypes)
  {
    assert resolutions[..a + 1][..a] == resolutions[..a];
  }
}

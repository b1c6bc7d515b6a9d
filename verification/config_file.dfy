/** `update_config_file` of hypermatrix/main.py with the file read and write
    stripped off: the lines of a config file are rewritten one by one, every
    update tried in dict order against the line as it stands so far. */
module ConfigFile {

  /** One entry of the `updates` dict, in insertion order. */
  datatype Update = Update(key: string, value: string)

  /** The replacement line `{key} = '{value}'` with its newline. */
  function Assignment(u: Update): string {
    u.key + " = '" + u.value + "'\n"
  }

  /** `line.startswith(f'{key} =')` */
  predicate Assigns(line: string, key: string) {
    key + " =" <= line
  }

  /** The inner loop for one line: each update, in order, replaces the line
      (as already rewritten by the earlier updates) when it assigns that key.
      Whatever the keys, the line comes out either as it went in or as the
      assignment line of one of the updates. */
  function RewriteLine(line: string, updates: seq<Update>): (r: string)
    decreases |updates|
    ensures r == line || exists u :: u in updates && r == Assignment(u)
  {
    if updates == [] then line
    else
      var u := updates[0];
      var r := RewriteLine(if Assigns(line, u.key) then Assignment(u) else line, updates[1..]);
      assert forall v :: v in updates[1..] ==> v in updates;
      r
  }

  /** The outer loop: every line read is written back, rewritten, in the same order. */
  method UpdateConfigFile(lines: seq<string>, updates: seq<Update>) returns (written: seq<string>)
    ensures |written| == |lines|
    ensures forall i :: 0 <= i < |lines| ==> written[i] == RewriteLine(lines[i], updates)
  {
    written := [];
    var n := 0;
    while n < |lines|
      invariant 0 <= n <= |lines|
      invariant |written| == n
      invariant forall i :: 0 <= i < n ==> written[i] == RewriteLine(lines[i], updates)
    {
      var line := lines[n];
      var k := 0;
      while k < |updates|
        invariant 0 <= k <= |updates|
        invariant RewriteLine(line, updates[k..]) == RewriteLine(lines[n], updates)
      {
        assert updates[k..][1..] == updates[k + 1..];
        if Assigns(line, updates[k].key) {
          line := Assignment(updates[k]);
        }
        k := k + 1;
      }
      assert updates[k..] == [];
      written := written + [line];
      n := n + 1;
    }
  }

  /** The keys a dict can hold here: pairwise distinct, and none containing a
      space (true of every key `abcluster` writes). */
  predicate WellFormedKeys(updates: seq<Update>) {
    (forall i, j :: 0 <= i < j < |updates| ==> updates[i].key != updates[j].key)
    && (forall i :: 0 <= i < |updates| ==> ' ' !in updates[i].key)
  }

  /** No key assigns the line. */
  predicate Unmatched(line: string, updates: seq<Update>) {
    forall i :: 0 <= i < |updates| ==> !Assigns(line, updates[i].key)
  }

  /** A line no update assigns is written back unchanged. */
  lemma {:induction false} UnmatchedLineKept(line: string, updates: seq<Update>)
    decreases |updates|
    requires Unmatched(line, updates)
    ensures RewriteLine(line, updates) == line
  {
    if updates != [] {
      assert !Assigns(line, updates[0].key);
      UnmatchedLineKept(line, updates[1..]);
    }
  }

  /** With an empty dict every line is written back unchanged. */
  lemma EmptyUpdatesIdentity(lines: seq<string>)
    ensures forall i :: 0 <= i < |lines| ==> RewriteLine(lines[i], []) == lines[i]
  {
  }

  /** Two spaceless keys can both start the same line with " =" only if they are equal. */
  lemma SameLineSameKey(line: string, k1: string, k2: string)
    requires ' ' !in k1 && ' ' !in k2
    requires Assigns(line, k1) && Assigns(line, k2)
    ensures k1 == k2
  {
    assert (k1 + " =")[..|k1|] == k1 && (k2 + " =")[..|k2|] == k2;
    assert line[|k1|] == ' ' && line[|k2|] == ' ';
  }

  /** An assignment line written for a key is assigned by that key and no other. */
  lemma AssignmentAssignsOnlyItsKey(u: Update, key: string)
    requires ' ' !in u.key && ' ' !in key
    ensures Assigns(Assignment(u), key) <==> key == u.key
  {
    assert Assignment(u) == (u.key + " =") + (" '" + u.value + "'\n");
    if Assigns(Assignment(u), key) {
      SameLineSameKey(Assignment(u), u.key, key);
    }
  }

  /** Once the line is the assignment of a later key and no later key is equal to
      it, the remaining updates leave it alone. */
  lemma {:induction false} AssignmentSurvives(u: Update, updates: seq<Update>)
    requires ' ' !in u.key
    requires forall i :: 0 <= i < |updates| ==> ' ' !in updates[i].key && updates[i].key != u.key
    ensures RewriteLine(Assignment(u), updates) == Assignment(u)
  {
    forall i | 0 <= i < |updates|
      ensures !Assigns(Assignment(u), updates[i].key)
    {
      AssignmentAssignsOnlyItsKey(u, updates[i].key);
    }
    UnmatchedLineKept(Assignment(u), updates);
  }

  /** A line that starts with `{key} =` for a key of the dict becomes exactly
      that key's assignment line; no other key's update touches it. */
  lemma {:induction false} MatchedLineReplaced(line: string, updates: seq<Update>, i: nat)
    decreases |updates|
    requires WellFormedKeys(updates)
    requires i < |updates| && Assigns(line, updates[i].key)
    ensures RewriteLine(line, updates) == Assignment(updates[i])
  {
    var u := updates[0];
    var rest := updates[1..];
    if i == 0 {
      AssignmentSurvives(u, rest);
    } else {
      if Assigns(line, u.key) {
        SameLineSameKey(line, u.key, updates[i].key);
        assert false;
      }
      assert WellFormedKeys(rest) by {
        forall p, q | 0 <= p < q < |rest|
          ensures rest[p].key != rest[q].key
        {
          assert rest[p] == updates[p + 1] && rest[q] == updates[q + 1];
        }
      }
      assert rest[i - 1] == updates[i];
      MatchedLineReplaced(line, rest, i - 1);
    }
  }

  /** Rewriting an already rewritten file changes nothing more. */
  lemma RewriteIdempotent(line: string, updates: seq<Update>)
    requires WellFormedKeys(updates)
    ensures RewriteLine(RewriteLine(line, updates), updates) == RewriteLine(line, updates)
  {
    if Unmatched(line, updates) {
      UnmatchedLineKept(line, updates);
      UnmatchedLineKept(line, updates);
    } else {
      var i :| 0 <= i < |updates| && Assigns(line, updates[i].key);
      MatchedLineReplaced(line, updates, i);
      AssignmentAssignsOnlyItsKey(updates[i], updates[i].key);
      MatchedLineReplaced(Assignment(updates[i]), updates, i);
    }
  }
}

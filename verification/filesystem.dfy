/** The working tree as the assembler sees it: a set of existing paths and
    the log of `os.Remove` calls issued so far. `os.Remove` deletes a file or
    an empty directory and fails (the callers ignore the error) on a missing
    path or on a directory that still has entries. */
module FileSystem {
  import opened Strings

  datatype Fs = Fs(paths: set<string>, removes: seq<string>)

  /** `q` lies strictly below directory `p`. */
  predicate IsDescendant(q: string, p: string) {
    HasPrefix(q, p + "/")
  }

  /** `os.Remove(p)` succeeds: the path exists and nothing lies below it. */
  predicate Removable(paths: set<string>, p: string) {
    p in paths && forall q :: q in paths ==> !IsDescendant(q, p)
  }

  /** One `os.Remove(p)` call with its error discarded. */
  function Remove(fs: Fs, p: string): (r: Fs)
    ensures r.removes == fs.removes + [p]
    ensures r.paths <= fs.paths
    ensures forall q :: q in fs.paths && q != p ==> q in r.paths
    ensures p in r.paths <==> p in fs.paths && exists q :: q in fs.paths && IsDescendant(q, p)
  {
    Fs(if Removable(fs.paths, p) then fs.paths - {p} else fs.paths, fs.removes + [p])
  }

  /** `os.Remove` called on each path in turn, errors discarded. */
  function RemoveEach(fs: Fs, ps: seq<string>): (r: Fs)
    ensures r.removes == fs.removes + ps
    ensures r.paths <= fs.paths
    ensures forall q :: q in fs.paths && q !in ps ==> q in r.paths
    decreases |ps|
  {
    if |ps| == 0 then fs
    else
      var r := RemoveEach(Remove(fs, ps[0]), ps[1..]);
      assert fs.removes + [ps[0]] + ps[1..] == fs.removes + ps;
      r
  }

  lemma RemoveEachConcat(fs: Fs, ps: seq<string>, qs: seq<string>)
    ensures RemoveEach(fs, ps + qs) == RemoveEach(RemoveEach(fs, ps), qs)
    decreases |ps|
  {
    if |ps| > 0 {
      assert (ps + qs)[1..] == ps[1..] + qs;
      RemoveEachConcat(Remove(fs, ps[0]), ps[1..], qs);
    } else {
      assert ps + qs == qs;
    }
  }

  /** A directory that keeps an entry the removes never name survives them:
      `os.Remove` refuses a directory that is not empty. */
  lemma {:induction false} ShieldedSurvives(fs: Fs, ps: seq<string>, p: string, d: string)
    requires p in fs.paths && d in fs.paths && IsDescendant(d, p) && d !in ps
    ensures p in RemoveEach(fs, ps).paths && d in RemoveEach(fs, ps).paths
    decreases |ps|
  {
    if |ps| > 0 {
      var fs1 := Remove(fs, ps[0]);
      assert d != ps[0];
      assert d in fs1.paths && p in fs1.paths;
      assert d !in ps[1..];
      ShieldedSurvives(fs1, ps[1..], p, d);
    }
  }

  /** No path in the list lies below another one in the list. */
  predicate NoNesting(ps: seq<string>) {
    forall i, j :: 0 <= i < |ps| && 0 <= j < |ps| ==> !IsDescendant(ps[j], ps[i])
  }

  /** Every listed path is absent or shielded by an entry below it that the
      list never removes. */
  predicate Settled(paths: set<string>, ps: seq<string>) {
    forall i :: 0 <= i < |ps| ==>
      ps[i] !in paths || exists d :: d in paths && d !in ps && IsDescendant(d, ps[i])
  }

  lemma {:induction false} SettledRemovesNothing(fs: Fs, ps: seq<string>)
    requires Settled(fs.paths, ps)
    ensures RemoveEach(fs, ps).paths == fs.paths
    decreases |ps|
  {
    if |ps| > 0 {
      assert !Removable(fs.paths, ps[0]) by {
        if ps[0] in fs.paths {
          var d :| d in fs.paths && d !in ps && IsDescendant(d, ps[0]);
        }
      }
      assert Remove(fs, ps[0]).paths == fs.paths;
      assert Settled(fs.paths, ps[1..]) by {
        forall i | 0 <= i < |ps[1..]|
          ensures ps[1..][i] !in fs.paths || exists d :: d in fs.paths && d !in ps[1..] && IsDescendant(d, ps[1..][i])
        {
          assert ps[1..][i] == ps[i + 1];
          if ps[i + 1] in fs.paths {
            var d :| d in fs.paths && d !in ps && IsDescendant(d, ps[i + 1]);
            assert d !in ps[1..];
          }
        }
      }
      SettledRemovesNothing(Remove(fs, ps[0]), ps[1..]);
    }
  }

  lemma {:induction false} RemoveEachSettles(fs: Fs, ps: seq<string>)
    requires NoNesting(ps)
    ensures Settled(RemoveEach(fs, ps).paths, ps)
    decreases |ps|
  {
    if |ps| > 0 {
      var fs1 := Remove(fs, ps[0]);
      var rest := ps[1..];
      var out := RemoveEach(fs, ps);
      assert out == RemoveEach(fs1, rest);
      assert NoNesting(rest) by {
        forall i, j | 0 <= i < |rest| && 0 <= j < |rest| ensures !IsDescendant(rest[j], rest[i]) {
          assert rest[j] == ps[j + 1] && rest[i] == ps[i + 1];
        }
      }
      RemoveEachSettles(fs1, rest);
      forall i | 0 <= i < |ps|
        ensures ps[i] !in out.paths || exists d :: d in out.paths && d !in ps && IsDescendant(d, ps[i])
      {
        if i == 0 {
          if ps[0] in out.paths {
            assert ps[0] in fs1.paths;
            var d :| d in fs.paths && IsDescendant(d, ps[0]);
            assert d !in ps by {
              forall j | 0 <= j < |ps| ensures ps[j] != d {
                assert !IsDescendant(ps[j], ps[0]);
              }
            }
            assert d in fs1.paths;
            assert d in out.paths;
          }
        } else {
          assert ps[i] == rest[i - 1];
          if ps[i] in out.paths {
            var d :| d in out.paths && d !in rest && IsDescendant(d, rest[i - 1]);
            assert d != ps[0] by {
              assert !IsDescendant(ps[0], ps[i]);
            }
            assert d !in ps by {
              assert ps == [ps[0]] + rest;
            }
          }
        }
      }
    }
  }

  /** Removing the same non-nested paths a second time deletes nothing more:
      what survived the first pass is missing or still has entries below it. */
  lemma RemoveEachIdempotent(fs: Fs, ps: seq<string>)
    requires NoNesting(ps)
    ensures RemoveEach(RemoveEach(fs, ps), ps).paths == RemoveEach(fs, ps).paths
  {
    RemoveEachSettles(fs, ps);
    SettledRemovesNothing(RemoveEach(fs, ps), ps);
  }
}

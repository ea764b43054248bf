/** `fmt.Sprintf` on a format whose only verbs are `%s`, each given a string
    argument: the format is kept as its literal pieces, split at the verbs,
    and filling it puts argument `k` between piece `k` and piece `k + 1`. */
module Format {

  /** The pieces of a template with one argument in each hole. */
  function Interleave(chunks: seq<string>, args: seq<string>): string
    requires |chunks| == |args| + 1
    decreases |args|
  {
    if |args| == 0 then chunks[0]
    else chunks[0] + args[0] + Interleave(chunks[1..], args[1..])
  }

  /** Argument `k` lands in hole `k`: what precedes it is the template up to
      that hole, what follows is the rest of the template filled with the
      remaining arguments. */
  lemma {:induction false} InterleaveHole(chunks: seq<string>, args: seq<string>, k: nat)
    requires |chunks| == |args| + 1 && k < |args|
    ensures Interleave(chunks, args)
         == Interleave(chunks[..k + 1], args[..k]) + args[k] + Interleave(chunks[k + 1..], args[k + 1..])
    decreases k
  {
    if k == 0 {
      assert chunks[..1] == [chunks[0]];
      assert args[..0] == [];
      assert chunks[1..] == chunks[k + 1..];
    } else {
      var cs, rest := chunks[1..], args[1..];
      InterleaveHole(cs, rest, k - 1);
      var head := chunks[0] + args[0];
      var before := Interleave(cs[..k], rest[..k - 1]);
      var after := Interleave(cs[k..], rest[k..]);
      assert cs[..k] == chunks[..k + 1][1..] && rest[..k - 1] == args[..k][1..];
      assert Interleave(chunks[..k + 1], args[..k]) == head + before;
      assert cs[k..] == chunks[k + 1..] && rest[k..] == args[k + 1..] && rest[k - 1] == args[k];
      assert head + (before + args[k] + after) == (head + before) + args[k] + after;
    }
  }

  lemma Interleave2(c0: string, c1: string, c2: string, a0: string, a1: string)
    ensures Interleave([c0, c1, c2], [a0, a1]) == c0 + a0 + c1 + a1 + c2
  {
    assert [c0, c1, c2][1..] == [c1, c2] && [c1, c2][1..] == [c2];
    assert [a0, a1][1..] == [a1] && [a1][1..] == [];
    assert Interleave([c2], []) == c2;
    assert Interleave([c1, c2], [a1]) == c1 + a1 + c2;
    assert c0 + a0 + (c1 + a1 + c2) == c0 + a0 + c1 + a1 + c2;
  }

  lemma Interleave4(c0: string, c1: string, c2: string, c3: string, c4: string,
                    a0: string, a1: string, a2: string, a3: string)
    ensures Interleave([c0, c1, c2, c3, c4], [a0, a1, a2, a3]) == c0 + a0 + c1 + a1 + c2 + a2 + c3 + a3 + c4
  {
    assert [c0, c1, c2, c3, c4][1..] == [c1, c2, c3, c4];
    assert [a0, a1, a2, a3][1..] == [a1, a2, a3];
    Interleave3(c1, c2, c3, c4, a1, a2, a3);
  }

  lemma Interleave3(c0: string, c1: string, c2: string, c3: string, a0: string, a1: string, a2: string)
    ensures Interleave([c0, c1, c2, c3], [a0, a1, a2]) == c0 + a0 + c1 + a1 + c2 + a2 + c3
  {
    assert [c0, c1, c2, c3][1..] == [c1, c2, c3];
    assert [a0, a1, a2][1..] == [a1, a2];
    Interleave2(c1, c2, c3, a1, a2);
  }

  lemma Interleave5(c0: string, c1: string, c2: string, c3: string, c4: string, c5: string,
                    a0: string, a1: string, a2: string, a3: string, a4: string)
    ensures Interleave([c0, c1, c2, c3, c4, c5], [a0, a1, a2, a3, a4])
         == c0 + a0 + c1 + a1 + c2 + a2 + c3 + a3 + c4 + a4 + c5
  {
    assert [c0, c1, c2, c3, c4, c5][1..] == [c1, c2, c3, c4, c5];
    assert [a0, a1, a2, a3, a4][1..] == [a1, a2, a3, a4];
    Interleave4(c1, c2, c3, c4, c5, a1, a2, a3, a4);
  }
}

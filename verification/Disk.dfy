/** Block devices as the log sees them: an image of fixed-size blocks that
    changes only by atomic single-block writes.  A crash keeps the blocks
    and loses everything in memory, so the crash states of a piece of code
    are the images reached by the prefixes of the writes it issues.
 */
module Disk {

  const MAXOPBLOCKS: nat := 10
  const LOGSIZE: nat := MAXOPBLOCKS * 3

  /** BSIZE is 512 bytes, 128 words, grouped as struct logheader lies over them. */
  const BLOCK_WORDS: nat := 128

  datatype Words = Words(n: nat, block: seq<nat>, rest: seq<nat>)

  type Block = b: Words | |b.block| == LOGSIZE && |b.rest| == BLOCK_WORDS - 1 - LOGSIZE
    witness ZeroBlock()

  function ZeroBlock(): Words {
    Words(0, seq(LOGSIZE, _ => 0), seq(BLOCK_WORDS - 1 - LOGSIZE, _ => 0))
  }

  type Image = seq<Block>

  datatype Write = Write(block: nat, data: Block)

  /** The image after a list of writes, in order. */
  function Apply(d: Image, ws: seq<Write>): (r: Image)
    ensures |r| == |d|
  {
    if ws == [] then d
    else
      var p := Apply(d, ws[..|ws| - 1]);
      var w := ws[|ws| - 1];
      if w.block < |p| then p[w.block := w.data] else p
  }

  ghost predicate DistinctBlocks(ws: seq<Write>) {
    forall i, j :: 0 <= i < j < |ws| ==> ws[i].block != ws[j].block
  }

  ghost predicate InRange(d: Image, ws: seq<Write>) {
    forall i :: 0 <= i < |ws| ==> ws[i].block < |d|
  }

  ghost predicate Touches(ws: seq<Write>, x: nat) {
    exists i :: 0 <= i < |ws| && ws[i].block == x
  }

  lemma {:induction false} ApplyConcat(d: Image, a: seq<Write>, b: seq<Write>)
    ensures Apply(d, a + b) == Apply(Apply(d, a), b)
    decreases |b|
  {
    if b == [] {
      assert a + b == a;
    } else {
      var b' := b[..|b| - 1];
      assert (a + b)[..|a + b| - 1] == a + b';
      ApplyConcat(d, a, b');
    }
  }

  /** One more write of a list. */
  lemma ApplyNext(d: Image, ws: seq<Write>, k: nat)
    requires k < |ws| && ws[k].block < |d|
    ensures ws[..k + 1] == ws[..k] + [ws[k]]
    ensures Apply(d, ws[..k + 1]) == Apply(d, ws[..k])[ws[k].block := ws[k].data]
  {
    assert ws[..k + 1][..k] == ws[..k];
  }

  lemma ApplyNone(d: Image, ws: seq<Write>)
    ensures Apply(d, ws[..0]) == d
  {
  }

  lemma TraceNext(was: seq<Write>, ws: seq<Write>, k: nat)
    requires k < |ws|
    ensures was + ws[..k] + [ws[k]] == was + ws[..k + 1]
  {
  }

  /** A crash point of a followed by b lies in a or in b. */
  lemma CutConcat(d: Image, a: seq<Write>, b: seq<Write>, k: nat)
    requires k <= |a + b|
    ensures k <= |a| ==> (a + b)[..k] == a[..k]
    ensures k >= |a| ==> Apply(d, (a + b)[..k]) == Apply(Apply(d, a), b[..k - |a|])
  {
    if k >= |a| {
      assert (a + b)[..k] == a + b[..k - |a|];
      ApplyConcat(d, a, b[..k - |a|]);
    }
  }

  /** Blocks that no write names keep their contents. */
  lemma {:induction false} ApplyFrame(d: Image, ws: seq<Write>, x: nat)
    requires x < |d| && !Touches(ws, x)
    ensures Apply(d, ws)[x] == d[x]
    decreases |ws|
  {
    if ws != [] {
      var ws' := ws[..|ws| - 1];
      forall i | 0 <= i < |ws'| ensures ws'[i].block != x {
        assert ws[i].block != x;
      }
      assert ws[|ws| - 1].block != x;
      ApplyFrame(d, ws', x);
    }
  }

  /** Writes to distinct blocks all stick. */
  lemma {:induction false} ApplyAt(d: Image, ws: seq<Write>, i: nat)
    requires i < |ws| && DistinctBlocks(ws) && InRange(d, ws)
    ensures Apply(d, ws)[ws[i].block] == ws[i].data
    decreases |ws|
  {
    var ws' := ws[..|ws| - 1];
    if i < |ws'| {
      ApplyAt(d, ws', i);
      assert ws'[i] == ws[i];
    }
  }

  /** Two lists of writes to distinct blocks that agree as maps have the same effect. */
  lemma ApplySame(d: Image, d': Image, ws: seq<Write>, x: nat)
    requires x < |d| == |d'|
    requires DistinctBlocks(ws) && InRange(d, ws)
    requires Touches(ws, x) || d[x] == d'[x]
    ensures Apply(d, ws)[x] == Apply(d', ws)[x]
  {
    if Touches(ws, x) {
      var i :| 0 <= i < |ws| && ws[i].block == x;
      ApplyAt(d, ws, i);
      ApplyAt(d', ws, i);
    } else {
      ApplyFrame(d, ws, x);
      ApplyFrame(d', ws, x);
    }
  }
}

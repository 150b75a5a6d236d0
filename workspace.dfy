/**
 * The block workspace shared by both editor windows: the seven block kinds, a placed
 * block record, the status line, and the list operations the windows apply to their
 * `blocks` list (delete-first-match and the run-time stable sort by canvas position).
 */
module Workspace {
  import opened Wrappers

  /** The seven block kinds of the palette, under the names the program uses. */
  datatype Action = Velocidad | Adelante | Izquierda | Derecha | Reversa | Detener | Esperar

  /**
   * The text of a block's parameter widget, given by its two parses: `integer` is the
   * result of Python's `int(text)` and `number` that of `float(text)` (None when the
   * text does not parse, or parses to an infinity or NaN).
   */
  datatype Entry = Entry(integer: Option<int>, number: Option<real>)

  /**
   * One entry of the `blocks` list: the canvas window id, the frame widget (compared by
   * identity, modelled as a handle), the kind, the parameter widget (None for `Detener`,
   * which has none) and the top-left corner of the block's bounding box on the canvas.
   */
  datatype Block = Block(id: nat, frame: nat, action: Action, param: Option<Entry>, left: int, top: int)

  /** The text of the status line. */
  datatype Status =
    | Ready                                            // "Listo"
    | NothingToRun                                     // "No hay bloques para ejecutar"
    | Executing(step: nat, total: nat, action: Action)  // "Ejecutando step/total: action"
    | SequenceCompleted                                // "Secuencia completada"
    | SequenceStarted                                  // "Ejecutando secuencia..."
    | AllCleared                                       // "Todo limpio"

  // ---------------------------------------------------------------------------
  // Delete-first-match
  // ---------------------------------------------------------------------------

  /** Whether some block of `s` has frame handle `frame`. */
  predicate HasFrame(s: seq<Block>, frame: nat) {
    exists i | 0 <= i < |s| :: s[i].frame == frame
  }

  /** `s` with the first block whose frame is `frame` removed; `s` itself if there is none. */
  function RemoveFirst(s: seq<Block>, frame: nat): (r: seq<Block>)
    ensures |r| <= |s|
  {
    if s == [] then []
    else if s[0].frame == frame then s[1..]
    else [s[0]] + RemoveFirst(s[1..], frame)
  }

  /**
   * Removing by frame shortens the list by one exactly when some block has that frame,
   * and never adds a block.
   */
  lemma {:induction false} RemoveFirstShrinks(s: seq<Block>, frame: nat)
    ensures |RemoveFirst(s, frame)| == if HasFrame(s, frame) then |s| - 1 else |s|
    ensures multiset(RemoveFirst(s, frame)) <= multiset(s)
  {
    if s != [] {
      assert s == [s[0]] + s[1..];
      if s[0].frame != frame {
        RemoveFirstShrinks(s[1..], frame);
        if HasFrame(s, frame) {
          var i :| 0 <= i < |s| && s[i].frame == frame;
          assert s[1..][i - 1].frame == frame;
        }
        if HasFrame(s[1..], frame) {
          var i :| 0 <= i < |s| - 1 && s[1..][i].frame == frame;
          assert s[i + 1].frame == frame;
        }
      }
    }
  }

  /**
   * RemoveFirst drops exactly the block at the first matching position `i` and keeps
   * every other block in order.
   */
  lemma {:induction false} RemoveFirstAt(s: seq<Block>, frame: nat, i: nat)
    requires i < |s| && s[i].frame == frame
    requires forall j | 0 <= j < i :: s[j].frame != frame
    ensures RemoveFirst(s, frame) == s[..i] + s[i + 1..]
  {
    if i > 0 {
      var t := s[1..];
      assert s[0].frame != frame;
      RemoveFirstAt(t, frame, i - 1);
      assert RemoveFirst(s, frame) == [s[0]] + RemoveFirst(t, frame);
      assert s[..i] == [s[0]] + t[..i - 1];
      assert t[i..] == s[i + 1..];
    }
  }

  /** With no matching block, RemoveFirst leaves the list as it was. */
  lemma {:induction false} RemoveFirstAbsent(s: seq<Block>, frame: nat)
    requires !HasFrame(s, frame)
    ensures RemoveFirst(s, frame) == s
  {
    if s != [] {
      assert s[0].frame != frame;
      RemoveFirstAbsent(s[1..], frame);
      assert s == [s[0]] + s[1..];
    }
  }

  /**
   * The scan of `_delete_block`: the position of the first block whose frame is `frame`,
   * or `|blocks|` when there is none.
   */
  method FindFrame(blocks: seq<Block>, frame: nat) returns (i: nat)
    ensures i <= |blocks|
    ensures i < |blocks| ==> blocks[i].frame == frame
    ensures forall j | 0 <= j < i :: blocks[j].frame != frame
  {
    i := 0;
    while i < |blocks| && blocks[i].frame != frame
      invariant i <= |blocks|
      invariant forall j | 0 <= j < i :: blocks[j].frame != frame
    {
      i := i + 1;
    }
  }

  // ---------------------------------------------------------------------------
  // Stable sort by canvas position (top, then left)
  // ---------------------------------------------------------------------------

  /** The sort key of the run: `(bbox top, bbox left)`, compared lexicographically. */
  predicate KeyLe(a: Block, b: Block) {
    a.top < b.top || (a.top == b.top && a.left <= b.left)
  }

  /**
   * The key order is a total preorder: blocks compare both ways exactly when they sit at
   * the same corner, so sorting by it is well defined up to the order of equal keys.
   */
  lemma KeyLeTotalPreorder(a: Block, b: Block, c: Block)
    ensures KeyLe(a, a)
    ensures KeyLe(a, b) || KeyLe(b, a)
    ensures KeyLe(a, b) && KeyLe(b, c) ==> KeyLe(a, c)
    ensures KeyLe(a, b) && KeyLe(b, a) <==> a.top == b.top && a.left == b.left
  {
  }

  predicate Sorted(s: seq<Block>) {
    forall i, j | 0 <= i < j < |s| :: KeyLe(s[i], s[j])
  }

  /** The blocks of `s` sitting at canvas corner (`left`, `top`), in their order in `s`. */
  function AtCorner(s: seq<Block>, left: int, top: int): (r: seq<Block>)
    ensures |r| <= |s|
  {
    if s == [] then []
    else (if s[0].left == left && s[0].top == top then [s[0]] else []) + AtCorner(s[1..], left, top)
  }

  /** Inserts `x` in front of the first element whose key is not smaller than its own. */
  function Insert(x: Block, s: seq<Block>): (r: seq<Block>)
    ensures |r| == |s| + 1
  {
    if s == [] || KeyLe(x, s[0]) then [x] + s
    else [s[0]] + Insert(x, s[1..])
  }

  /** Inserting keeps every block of `s` and adds exactly `x`. */
  lemma {:induction false} InsertPermutes(x: Block, s: seq<Block>)
    ensures multiset(Insert(x, s)) == multiset(s) + multiset{x}
  {
    if s != [] && !KeyLe(x, s[0]) {
      InsertPermutes(x, s[1..]);
      assert s == [s[0]] + s[1..];
    }
  }

  /**
   * Python's `sorted(blocks, key=lambda b: (top, left))`: an insertion sort that is, like
   * Python's, stable (see SortBlocksStable).
   */
  function SortBlocks(s: seq<Block>): (r: seq<Block>)
    ensures |r| == |s|
    ensures Sorted(r)
    ensures multiset(r) == multiset(s)
  {
    if s == [] then []
    else
      var t := SortBlocks(s[1..]);
      InsertSorted(s[0], t);
      InsertPermutes(s[0], t);
      assert s == [s[0]] + s[1..];
      Insert(s[0], t)
  }

  lemma {:induction false} InsertSorted(x: Block, s: seq<Block>)
    requires Sorted(s)
    ensures Sorted(Insert(x, s))
  {
    if s != [] && !KeyLe(x, s[0]) {
      InsertSorted(x, s[1..]);
      InsertPermutes(x, s[1..]);
      var r := Insert(x, s);
      var t := Insert(x, s[1..]);
      assert r == [s[0]] + t;
      forall k | 0 <= k < |t| ensures KeyLe(s[0], t[k]) {
        assert t[k] in multiset(t);
        assert t[k] in multiset(s[1..]) + multiset{x};
        if t[k] in multiset(s[1..]) {
          var m :| 0 <= m < |s[1..]| && s[1..][m] == t[k];
          assert s[m + 1] == t[k];
        }
      }
    }
  }

  lemma {:induction false} InsertAtCorner(x: Block, s: seq<Block>, left: int, top: int)
    ensures AtCorner(Insert(x, s), left, top) == AtCorner([x] + s, left, top)
  {
    if s != [] && !KeyLe(x, s[0]) {
      var t := s[1..];
      InsertAtCorner(x, t, left, top);
      var r := Insert(x, s);
      assert r[0] == s[0] && r[1..] == Insert(x, t);
      assert ([x] + t)[0] == x && ([x] + t)[1..] == t;
      assert ([x] + s)[0] == x && ([x] + s)[1..] == s;
      var head := if s[0].left == left && s[0].top == top then [s[0]] else [];
      var xs := if x.left == left && x.top == top then [x] else [];
      var rest := AtCorner(t, left, top);
      assert AtCorner(r, left, top) == head + (xs + rest);
      assert AtCorner([x] + s, left, top) == xs + (head + rest);
      // x sorts strictly after s[0], so at most one of the two sits at the corner
      assert head == [] || xs == [];
      assert head + (xs + rest) == xs + (head + rest);
    }
  }

  /**
   * The sorted list is ordered by `(top, left)`, holds the same blocks, and keeps the
   * relative order of blocks with equal keys (Python's sort is stable).
   */
  lemma {:induction false} SortBlocksStable(s: seq<Block>)
    ensures Sorted(SortBlocks(s))
    ensures multiset(SortBlocks(s)) == multiset(s)
    ensures forall left: int, top: int :: AtCorner(SortBlocks(s), left, top) == AtCorner(s, left, top)
  {
    if s != [] {
      SortBlocksStable(s[1..]);
      forall left: int, top: int
        ensures AtCorner(SortBlocks(s), left, top) == AtCorner(s, left, top)
      {
        InsertAtCorner(s[0], SortBlocks(s[1..]), left, top);
        assert ([s[0]] + SortBlocks(s[1..]))[1..] == SortBlocks(s[1..]);
      }
    }
  }
}

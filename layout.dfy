/** The sorted tree: one folder per category, each holding files by name.
    A batch run changes it only by moving files into category folders, which are
    created when absent. Moving onto an existing name in the same folder replaces
    that file, as a rename does on a POSIX file system. */
module Layout {

  type Bytes = seq<bv8>

  /** Folder name -> (file name -> file content). */
  type Tree = map<string, map<string, Bytes>>

  /** A file put into a category folder. */
  datatype Move = Move(category: string, name: string, content: Bytes)

  /** The folders a tree gains or keeps for some moves. */
  function CategoriesOf(moves: seq<Move>): set<string> {
    set m | m in moves :: m.category
  }

  function NamesOf(moves: seq<Move>): set<string> {
    set m | m in moves :: m.name
  }

  /** No two moves carry the same file name. */
  predicate DistinctNames(moves: seq<Move>) {
    forall i, j :: 0 <= i < j < |moves| ==> moves[i].name != moves[j].name
  }

  /** Creates the category folder unless it exists already. */
  function EnsureFolder(tree: Tree, category: string): (r: Tree)
    ensures r.Keys == tree.Keys + {category}
    ensures forall c :: c in tree ==> r[c] == tree[c]
    ensures category !in tree ==> r[category] == map[]
  {
    if category in tree then tree else tree[category := map[]]
  }

  /** Creating a folder twice is creating it once. */
  lemma EnsureFolderIdempotent(tree: Tree, category: string)
    ensures EnsureFolder(EnsureFolder(tree, category), category) == EnsureFolder(tree, category)
  {
  }

  /** One move: ensure the folder, then put the file in it under its name. */
  function PlaceFile(tree: Tree, m: Move): (r: Tree)
    ensures r.Keys == tree.Keys + {m.category}
    ensures m.name in r[m.category] && r[m.category][m.name] == m.content
    ensures r[m.category].Keys == (if m.category in tree then tree[m.category].Keys else {}) + {m.name}
    ensures forall g :: g in r[m.category] && g != m.name ==> r[m.category][g] == tree[m.category][g]
    ensures forall c :: c in tree && c != m.category ==> r[c] == tree[c]
  {
    var t := EnsureFolder(tree, m.category);
    t[m.category := t[m.category][m.name := m.content]]
  }

  /** The moves of a batch, applied in order. */
  function ApplyMoves(tree: Tree, moves: seq<Move>): Tree {
    if moves == [] then tree
    else PlaceFile(ApplyMoves(tree, moves[..|moves| - 1]), moves[|moves| - 1])
  }

  /** The folders after a batch are the old ones and those of the moves. */
  lemma {:induction false} ApplyMovesFolders(tree: Tree, moves: seq<Move>)
    ensures ApplyMoves(tree, moves).Keys == tree.Keys + CategoriesOf(moves)
  {
    if moves != [] {
      var init := moves[..|moves| - 1];
      var last := moves[|moves| - 1];
      ApplyMovesFolders(tree, init);
      assert forall x :: x in moves <==> x in init || x == last;
      assert CategoriesOf(moves) == CategoriesOf(init) + {last.category};
    }
  }

  /** With distinct names every moved file ends in its folder with its content. */
  lemma {:induction false} ApplyMovesLands(tree: Tree, moves: seq<Move>, k: nat)
    requires DistinctNames(moves)
    requires k < |moves|
    ensures moves[k].category in ApplyMoves(tree, moves)
    ensures moves[k].name in ApplyMoves(tree, moves)[moves[k].category]
    ensures ApplyMoves(tree, moves)[moves[k].category][moves[k].name] == moves[k].content
  {
    var init := moves[..|moves| - 1];
    if k < |moves| - 1 {
      ApplyMovesLands(tree, init, k);
      assert moves[k] == init[k];
    }
  }

  /** Every file of the tree after a batch was moved there by the batch or was
      already there with the same content. */
  lemma {:induction false} ApplyMovesOrigin(tree: Tree, moves: seq<Move>, c: string, g: string)
    requires c in ApplyMoves(tree, moves) && g in ApplyMoves(tree, moves)[c]
    ensures || (exists k :: 0 <= k < |moves| && moves[k].category == c && moves[k].name == g)
            || (c in tree && g in tree[c] && ApplyMoves(tree, moves)[c][g] == tree[c][g])
  {
    if moves != [] {
      var init := moves[..|moves| - 1];
      var last := moves[|moves| - 1];
      var before := ApplyMoves(tree, init);
      if !(last.category == c && last.name == g) {
        assert c in before && g in before[c];
        ApplyMovesOrigin(tree, init, c, g);
        if exists k :: 0 <= k < |init| && init[k].category == c && init[k].name == g {
          var k :| 0 <= k < |init| && init[k].category == c && init[k].name == g;
          assert moves[k] == init[k];
        }
      }
    }
  }

  /** Nothing already in the tree is lost or altered, unless a moved file with
      the same name lands in the same folder. */
  lemma {:induction false} ApplyMovesKeeps(tree: Tree, moves: seq<Move>, c: string, g: string)
    requires c in tree && g in tree[c]
    requires forall k :: 0 <= k < |moves| ==> !(moves[k].category == c && moves[k].name == g)
    ensures c in ApplyMoves(tree, moves) && g in ApplyMoves(tree, moves)[c]
    ensures ApplyMoves(tree, moves)[c][g] == tree[c][g]
  {
    if moves != [] {
      var init := moves[..|moves| - 1];
      forall k | 0 <= k < |init| ensures !(init[k].category == c && init[k].name == g) {
        assert init[k] == moves[k];
      }
      ApplyMovesKeeps(tree, init, c, g);
    }
  }

  /** A folder no move targets is left exactly as it was. */
  lemma {:induction false} ApplyMovesUntouched(tree: Tree, moves: seq<Move>, c: string)
    requires c in tree
    requires forall k :: 0 <= k < |moves| ==> moves[k].category != c
    ensures c in ApplyMoves(tree, moves) && ApplyMoves(tree, moves)[c] == tree[c]
  {
    if moves != [] {
      var init := moves[..|moves| - 1];
      forall k | 0 <= k < |init| ensures init[k].category != c {
        assert init[k] == moves[k];
      }
      ApplyMovesUntouched(tree, init, c);
    }
  }

  /** Each moved file appears in exactly one folder it was not in before: its
      own category's. In any other folder its name is found only if a file of
      that name was there already, and that file is unchanged. */
  lemma MovedFileInOneFolder(tree: Tree, moves: seq<Move>, k: nat, c: string)
    requires DistinctNames(moves)
    requires k < |moves|
    requires c != moves[k].category
    requires c in ApplyMoves(tree, moves) && moves[k].name in ApplyMoves(tree, moves)[c]
    ensures c in tree && moves[k].name in tree[c]
    ensures ApplyMoves(tree, moves)[c][moves[k].name] == tree[c][moves[k].name]
  {
    ApplyMovesOrigin(tree, moves, c, moves[k].name);
  }
}

# Sudoku breadth-first search, modelled in Dafny

This project models the search core of `sudoku.py`, a solver for N-by-N Sudoku grids.
A grid is a list of rows of integers, and 0 marks an empty cell. The solver does three things:
- It looks for repeated digits in rows, columns and boxes. It does this with loops over a ten-slot "seen" list.
- It builds successor grids by putting each digit 1..N into the first empty cell, scanning row by row.
- It explores the successors breadth-first from a FIFO frontier. It returns the first solved grid, and it drops any successor that already has a conflict.

Modules, one per part of the source:
- `Wrappers` (`wrappers.dfy`): `Option`, which stands for the source's `None`.
- `Grids` (`grid.dfy`): the grid type. It also holds the predicates that specify the checks: `Filled`, `LineConflict`, `BoxConflict`, `IsGoal`, `IsDead`, the "first empty cell" predicate and the count of empty cells. The lemmas about these predicates live here too.
- `Problem` (`problem.dfy`): the methods of class `Problem`.
  - `is_filled` is a loop over the rows that returns false at the first row holding a 0. It is proved equal to `Filled`.
  - `check_rcs` and `check_boxes` are loops over a fresh `array<bool>` of length 10 (the seen-list). Each returns on the first repeat, and each is proved equal to its predicate.
  - `goal_test` and `prune` are built from those loops.
  - `actions` and `result` generate the successors.
- `Search` (`search.dfy`): the class `Node`, whose fields never change after construction, so they are `const`. This module also holds `breadth_first_search`, with its frontier as a `seq<Node>` used first-in first-out.

The search is proved to terminate. The measure is the sum, over the frontier, of a weight that grows with the number of empty cells. One node with z empty cells weighs more than the N nodes with z - 1 empty cells that can replace it.

Points where the behaviour of `sudoku.py` is easy to misread:
- **Full grid with a conflict.** A full grid with a conflict does not yield `None`. The root is not a goal, so it is enqueued and then expanded. Every child then has state `None`, because `result` finds no empty cell. Then `goal_test(None)` raises a `TypeError`. The model returns `StateError` here. `Search.BreadthFirstSearch` proves that this happens exactly when the initial grid is filled and has a conflict.
- **Size of the "seen" list.** It always has 10 slots, whatever N is. So the model requires every cell to be in 0..9.
- **Box geometry.** It is taken literally from the code:
  - Box rows start at `range(0, N - 1, N // 3)`, which is 0, N/3 and 2N/3 below N - 1.
  - Box columns start at multiples of 3.
  - Each box is N/3 rows by 3 columns.
  - For N = 3 the boxes are rows 0 and 1 only, and row 2 is never checked as a box. `Grids.ThreeByThreeBoxesAreRows` shows that this cannot change any result.

## Model

| member | source | states |
|---|---|---|
| `Problem.IsFilled` | sudoku.py:53-60 | true exactly when no cell of the grid is 0 |
| `Problem.CheckRcs` | sudoku.py:62-89 | true exactly when some row or some column holds the same nonzero digit at two positions; zeros never conflict |
| `Problem.BoxHasRepeat` | sudoku.py:102-109 | the scan of one box (N/3 rows by 3 columns, fresh seen-list) returns true exactly when two of its cells hold the same nonzero digit |
| `Problem.ScanBoxRow` | sudoku.py:104-109 | scanning the three cells of one box row either finds a repeat in the box, or leaves the seen-list marking exactly the digits visited, with no repeat among them |
| `Problem.CheckBoxes` | sudoku.py:91-111 | true exactly when some box repeats a nonzero digit; box rows start at 0, N/3, 2N/3 below N - 1 and box columns at multiples of 3 |
| `Problem.GoalTest` | sudoku.py:30-44 | true exactly when the grid is filled and has neither a line conflict nor a box conflict |
| `Problem.Prune` | sudoku.py:46-51 | true exactly when the grid has a box conflict or a line conflict, filled or not |
| `Problem.Actions` | sudoku.py:13-17 | the actions are the digits 1..N (N = number of rows), each once, in strictly ascending order |
| `Problem.Result` | sudoku.py:19-28 | no grid when the grid has no 0; otherwise the grid with its first 0 in row-major order set to the digit, every other cell and the input unchanged |
| `Problem.ResultDeterministic` | sudoku.py:19-28 | the specification of `result` fixes its outcome: two results of the same grid and digit are equal |
| `Problem.ResultExtends` | sudoku.py:19-28 | a successor keeps the parent's shape and every placed digit, differs from it, has one empty cell fewer, and is dead whenever the parent is |
| `Grids.FirstZeroUnique` | sudoku.py:24-28 | a grid has at most one first empty cell in row-major order |
| `Grids.ZerosAfterSetCell` | sudoku.py:26-27 | writing a nonzero digit into an empty cell lowers the number of empty cells by exactly one |
| `Grids.ZerosZeroIffFilled` | sudoku.py:53-60 | a grid counts zero empty cells exactly when it is filled |
| `Grids.GoalIffFilledAndAlive` | sudoku.py:30-51 | a grid is a goal exactly when it is filled and not pruned, so a goal is never pruned |
| `Grids.DeadPersists` | sudoku.py:46-51 | any grid that keeps the digits of a pruned grid is itself pruned: filling cells never removes a conflict |
| `Grids.DeadNeverCompletes` | sudoku.py:46-51 | no completion of a pruned grid is a goal, so pruning never discards a solution |
| `Grids.ThreeByThreeBoxesAreRows` | sudoku.py:97-104 | on a 3-by-3 grid, where the boxes are rows 0 and 1, a grid is pruned exactly when it has a row or column conflict, and is a goal exactly when it is filled and has none; so skipping row 2 as a box changes no result |
| `Search.Node.constructor` | sudoku.py:115-121 | the root has depth 0, and a node with a parent is one deeper than the parent |
| `Search.Node.ChildNode` | sudoku.py:130-132 | the child's state is the result of placing the digit into this node's grid; its parent is this node and its depth is one more |
| `Search.Node.Expand` | sudoku.py:123-128 | one fresh child per action, in the order of the actions: the i-th child (counting from 1) is one deeper than this node, has it as parent, and holds the result of placing digit i |
| `Search.ExpandedIff` | sudoku.py:123-132 | the recursive description of an expansion used by the search holds exactly when every child i has this node as parent, is one deeper, and holds the result of digit i |
| `Search.ChildFacts` | sudoku.py:130-132 | a child of a queued node keeps the initial grid's digits and shape; its depth plus its empty cells equals the initial grid's empty cells; it is dead if the initial grid is |
| `Search.VisitChild` | sudoku.py:147-153 | a child without a grid stops with the error; a child with a grid stops the search exactly when it is solved, and then the node returned is that child and it solves the initial grid; a child that does not stop is appended to the frontier (and to the ghost record of enqueued nodes) exactly when it is not pruned, and nothing else changes |
| `Search.VisitNext` | sudoku.py:147-153 | visiting child i after children 0..i-1 passed: it stops exactly as `VisitChild` says for that child, and otherwise child i has passed too and the frontier has grown by exactly the unpruned children 0..i |
| `Search.PassedMeansNoGoal` | sudoku.py:147-149 | every child the loop has passed holds a grid that is not solved, so the search stops at the first solved child |
| `Search.VisitChildren` | sudoku.py:147-153 | the children visited are the expansion of the node in digit order; those before the stopping index k all held a grid that was not solved; the search stops at child k with the error when it has no grid and with that child when it is solved, and otherwise runs through every child; the new frontier is the old one followed by the unpruned children before k, in order, and the ghost record grows by the same nodes; the error happens exactly when the node's grid is filled |
| `Search.SearchStep` | sudoku.py:143-153 | one turn of the frontier loop: the head of the frontier is expanded into exactly N children, one per digit 1..N in order; the search stops at the first child that has no grid (the error) or is solved (that child is returned), and only after every earlier child held an unsolved grid; the new frontier is the old one without its head, followed by the unpruned children before the stop, in order; the record of enqueued nodes grows by exactly those nodes and the dequeued count by one; a solution's parent was enqueued; the error happens exactly when the initial grid is filled; otherwise the frontier's weight drops |
| `Search.BreadthFirstSearch` | sudoku.py:135-155 | a goal root is returned unchanged at depth 0; any returned node is a goal, keeps every digit of the initial grid, and its depth is the initial number of empty cells; the type error happens exactly when the initial grid is filled and has a conflict; a dead initial grid never yields a solution. The ghost output `enqueued` records every node put on the frontier, in order: it starts with the root, which holds the initial grid at depth 0; a returned solution below the root has an enqueued parent; and every recorded node except the root is unpruned, agrees with the initial grid, and its depth counts the cells it has filled |

## Left out

- The `GUI` class and `main` (sudoku.py:157-255) are tkinter widgets and entry-text parsing. The search does not depend on them.
- `queue.Queue` is thread-safe, and the locking is not modelled. The frontier is a local `seq` used first-in first-out.
- The `Problem` object is not modelled as a class. Its methods are stateless, and `problem.initial = node.state` (sudoku.py:145) writes a field that nothing reads afterwards. `BreadthFirstSearch` takes the initial grid as a parameter.
- The guard `child != None` (sudoku.py:152) is always true, because `child` is a `Node`. It is dropped.
- `Node.action` is stored, and `Node.parent` is used only to compute the depth. No path is reconstructed from them.
- The search, `BreadthFirstSearch`, is modelled only on square grids of side 3, 6 or 9 with every cell in 0..9; its precondition excludes every other input. The checks accept more: `IsFilled` takes any grid, `Result` any square grid, `CheckRcs` any square grid with cells in 0..9, and `CheckBoxes`, `GoalTest` and `Prune` take any square grid whose side is a multiple of 3 (12 and 15 included) with cells in 0..9. On most excluded inputs `sudoku.py` raises an exception, but on some it runs to an answer. The excluded inputs are:
  - a cell outside 0..9, which is an index error in the seen-list (a negative cell would wrap around in Python);
  - a grid side that is not a multiple of 3. There `colstart + 3` can overrun a row, or the `range` step is 0. On a 4-by-4 grid with an empty cell whose first box already repeats a digit, every child is pruned before the overrun, so the search returns `None`;
  - a grid that is not square. A 3-by-6 grid, for example, runs through every check without an exception;
  - a side above 9, where the digits 10 and up would overflow the seen-list.
- `deepcopy` and aliasing: grids are Dafny values, so a copy can never share rows with the grid it was copied from.
- `expand` is a list comprehension in the source. Here it is a loop, because creating `Node` objects needs a method.
- BreadthFirstSearch: does not state completeness (that `NoSolution` means no completion of the initial grid exists), and does not state that the solution returned is the first goal in breadth-first order.

/**
 How many frames an address space takes: one for each page that is present and
 one for each table on the way to it, tables being shared by neighbouring pages.
 */
module Footprint {
  import opened Pointers

  /** Some page of `S` lies under the same table of the given level as `p`. */
  ghost predicate Near(S: set<Page>, p: Page, level: nat) {
    exists q: Page :: q in S && Together(q, p, level)
  }

  /** Level 3: the same PDPT; level 2: the same directory; level 1: the same page table. */
  predicate Together(q: Page, p: Page, level: nat) {
    q.i4 == p.i4 && (level <= 2 ==> q.i3 == p.i3) && (level <= 1 ==> q.i2 == p.i2)
  }

  ghost function One(S: set<Page>, p: Page, level: nat): nat {
    if Near(S, p, level) then 0 else 1
  }

  /** Tables that page `p` needs beside those the pages of `S` have. */
  ghost function NewTables(S: set<Page>, p: Page): (n: nat)
    ensures n <= 3
  {
    One(S, p, 3) + One(S, p, 2) + One(S, p, 1)
  }

  ghost function Pdpts(S: set<Page>): set<Index> { set p | p in S :: p.i4 }

  ghost function Pds(S: set<Page>): set<(Index, Index)> { set p | p in S :: (p.i4, p.i3) }

  ghost function Pts(S: set<Page>): set<(Index, Index, Index)> { set p | p in S :: (p.i4, p.i3, p.i2) }

  ghost function TableCount(S: set<Page>): nat {
    |Pdpts(S)| + |Pds(S)| + |Pts(S)|
  }

  /** Frames for the pages of `S`, each with a frame of its own, and for their tables. */
  ghost function Cost(S: set<Page>): nat {
    |S| + TableCount(S)
  }

  lemma SizeWith<T>(A: set<T>, x: T)
    ensures |A + {x}| == |A| + if x in A then 0 else 1
  {
    if x in A {
      assert A + {x} == A;
    }
  }

  lemma OneMoreTables(S: set<Page>, p: Page)
    ensures TableCount(S + {p}) == TableCount(S) + NewTables(S, p)
  {
    assert Pdpts(S + {p}) == Pdpts(S) + {p.i4};
    assert Pds(S + {p}) == Pds(S) + {(p.i4, p.i3)};
    assert Pts(S + {p}) == Pts(S) + {(p.i4, p.i3, p.i2)};
    SizeWith(Pdpts(S), p.i4);
    SizeWith(Pds(S), (p.i4, p.i3));
    SizeWith(Pts(S), (p.i4, p.i3, p.i2));
    NearIndices(S, p);
  }

  lemma NearIndices(S: set<Page>, p: Page)
    ensures Near(S, p, 3) <==> p.i4 in Pdpts(S)
    ensures Near(S, p, 2) <==> (p.i4, p.i3) in Pds(S)
    ensures Near(S, p, 1) <==> (p.i4, p.i3, p.i2) in Pts(S)
  {
  }

  lemma OneMore(S: set<Page>, p: Page)
    ensures p !in S ==> Cost(S + {p}) == Cost(S) + 1 + NewTables(S, p)
    ensures p in S ==> S + {p} == S && NewTables(S, p) == 0
  {
    OneMoreTables(S, p);
    if p in S {
      assert Together(p, p, 3) && Together(p, p, 2) && Together(p, p, 1);
    }
  }

  lemma {:induction false} CostMono(S: set<Page>, T: set<Page>)
    requires S <= T
    ensures TableCount(S) <= TableCount(T) && Cost(S) <= Cost(T)
    decreases |T - S|
  {
    if p :| p in T && p !in S {
      OneMoreTables(S, p);
      CostMono(S + {p}, T);
    } else {
      assert S == T;
    }
  }
}

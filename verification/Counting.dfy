/** Counting the operations of a concurrent system by the role they currently play. */
module Counting {

  ghost function Those<T>(ops: map<nat, T>, f: T -> bool): set<nat> {
    set id | id in ops && f(ops[id])
  }

  ghost function Count<T>(ops: map<nat, T>, f: T -> bool): nat {
    |Those(ops, f)|
  }

  function One(b: bool): int { if b then 1 else 0 }

  lemma ThoseUpdate<T>(ops: map<nat, T>, id: nat, op: T, f: T -> bool)
    ensures Those(ops[id := op], f) == if f(op) then Those(ops, f) + {id} else Those(ops, f) - {id}
  {
  }

  /** Moving one operation changes a count by what the move changes. */
  lemma CountUpdate<T>(ops: map<nat, T>, id: nat, op: T, f: T -> bool)
    ensures Count(ops[id := op], f) == Count(ops, f) - One(id in ops && f(ops[id])) + One(f(op))
  {
    ThoseUpdate(ops, id, op, f);
    var those := Those(ops, f);
    assert id in those <==> id in ops && f(ops[id]);
    hide Those;
    assert id in those ==> those == (those - {id}) + {id} == those + {id};
    assert id !in those ==> those - {id} == those;
  }

  lemma CountIsPositive<T>(ops: map<nat, T>, id: nat, f: T -> bool)
    requires id in ops && f(ops[id])
    ensures Count(ops, f) >= 1
  {
    assert id in Those(ops, f);
  }

  lemma {:induction false} SubsetSize(a: set<nat>, b: set<nat>)
    requires a <= b
    ensures |a| <= |b|
    decreases a
  {
    if a != {} {
      var x :| x in a;
      SubsetSize(a - {x}, b - {x});
    }
  }

  /** A narrower role is played by no more operations than a wider one. */
  lemma CountSubset<T(!new)>(ops: map<nat, T>, f: T -> bool, g: T -> bool)
    requires forall op: T :: f(op) ==> g(op)
    ensures Count(ops, f) <= Count(ops, g)
  {
    SubsetSize(Those(ops, f), Those(ops, g));
  }

  lemma CountNone<T>(ops: map<nat, T>, f: T -> bool)
    requires forall id :: id in ops ==> !f(ops[id])
    ensures Count(ops, f) == 0
  {
    assert Those(ops, f) == {};
  }
}

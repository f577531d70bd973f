/**
  Resource variables share their buffers with whoever has read them, and copy before they
  update. Observed from outside, every variable and every tensor has a value of its own.
 */
module CopyOnWrite {
  type Buffer = nat
  type Var = nat
  type Handle = nat

  datatype Value = Value(shape: seq<nat>, data: seq<int>)

  // What updateFunc writes into a variable, given the operation, the variable and the value.
  type UpdateFunc = (int, seq<int>, seq<int>) -> seq<int>

  // What kernels do with variables; handles are tensors outside the variables.
  datatype Op =
    | Assign(v: Var, value: Handle, validateShape: bool) // TF_AssignVariable
    | AssignUpdate(v: Var, value: Handle, code: int)     // TF_AssignUpdateVariable
    | Write(v: Var, sparse: bool, code: int)             // TF_GetInputTensorFromVariable, then a write to the tensor
    | EnsureSparse(v: Var)                               // EnsureSparseVariableAccess
    | Read(v: Var, into: Handle)                         // ReadVariableOp
    | DisableCopyOnRead(v: Var)                          // DisableCopyOnReadOp
    | Drop(h: Handle)                                    // a kernel lets go of a tensor

  // ---- Plain values, without buffers

  datatype Values = Values(variables: map<Var, Value>, tensors: map<Handle, Value>)

  // An operation is refused if it names a variable or a tensor that does not exist, or if the
  // shapes disagree.
  predicate Accepted(s: Values, op: Op) {
    match op
    case Assign(v, value, validateShape) =>
      value in s.tensors && (validateShape && v in s.variables ==> s.variables[v].shape == s.tensors[value].shape)
    case AssignUpdate(v, value, _) =>
      v in s.variables && value in s.tensors && s.variables[v].shape == s.tensors[value].shape
    case Write(v, _, _) => v in s.variables
    case EnsureSparse(v) => v in s.variables
    case Read(v, _) => v in s.variables
    case DisableCopyOnRead(v) => v in s.variables
    case Drop(_) => true
  }

  function Updated(update: UpdateFunc, code: int, a: Value, b: seq<int>): Value {
    Value(a.shape, update(code, a.data, b))
  }

  // What an operation that succeeds means.
  function Apply(s: Values, op: Op, update: UpdateFunc): Values
    requires Accepted(s, op)
  {
    match op
    case Assign(v, value, _) => s.(variables := s.variables[v := s.tensors[value]])
    case AssignUpdate(v, value, code) =>
      s.(variables := s.variables[v := Updated(update, code, s.variables[v], s.tensors[value].data)])
    case Write(v, _, code) => s.(variables := s.variables[v := Updated(update, code, s.variables[v], [])])
    case EnsureSparse(_) => s
    case Read(v, into) => s.(tensors := s.tensors[into := s.variables[v]])
    case DisableCopyOnRead(_) => s
    case Drop(h) => s.(tensors := s.tensors - {h})
  }

  // An accepted operation can still fail for lack of memory; a failure changes no value.
  ghost predicate Meaning(s: Values, s': Values, op: Op, available: bool, ok: bool, update: UpdateFunc) {
    && (if ok then Accepted(s, op) && s' == Apply(s, op, update) else s' == s)
    && (Accepted(s, op) && available ==> ok)
  }

  // ---- Buffers

  class VariableStore {
    var buffers: map<Buffer, Value>
    var nextBuffer: Buffer
    var tensors: map<Var, Buffer>     // *var->tensor()
    var copyOnRead: set<Var>          // var->copy_on_read_mode
    var handles: map<Handle, Buffer>  // tensors outside the variables

    // Tensor::RefCountIsOne
    predicate RefCountIsOne(v: Var)
      requires v in tensors
      reads this
    {
      && (forall h | h in handles :: handles[h] != tensors[v])
      && (forall u | u in tensors && u != v :: tensors[u] != tensors[v])
    }

    ghost predicate Valid()
      reads this
    {
      && (forall b | b in buffers :: b < nextBuffer)
      && (forall v | v in tensors :: tensors[v] in buffers)
      && (forall h | h in handles :: handles[h] in buffers)
      && copyOnRead <= tensors.Keys
      && (forall v | v in copyOnRead :: RefCountIsOne(v))
    }

    ghost function Contents(): Values
      requires Valid()
      reads this
    {
      Values(map v | v in tensors :: buffers[tensors[v]], map h | h in handles :: buffers[handles[h]])
    }

    constructor ()
      ensures Valid() && Contents() == Values(map[], map[])
    {
      buffers, nextBuffer, tensors, copyOnRead, handles := map[], 0, map[], {}, map[];
    }

    // A buffer that nobody refers to yet.
    method NewBuffer(value: Value) returns (b: Buffer)
      requires Valid()
      modifies this`buffers, this`nextBuffer
      ensures Valid() && Contents() == old(Contents())
      ensures b !in old(buffers) && buffers == old(buffers)[b := value]
    {
      b := nextBuffer;
      buffers := buffers[b := value];
      nextBuffer := nextBuffer + 1;
      assert forall u | u in copyOnRead :: old(RefCountIsOne(u));
    }

    method SetVariable(v: Var, b: Buffer)
      requires Valid() && b in buffers
      requires forall u | u in copyOnRead && u != v :: tensors[u] != b
      requires v in copyOnRead ==> forall h | h in handles :: handles[h] != b
      requires v in copyOnRead ==> forall u | u in tensors && u != v :: tensors[u] != b
      modifies this`tensors
      ensures Valid() && tensors == old(tensors)[v := b]
      ensures Contents() == old(Contents()).(variables := old(Contents()).variables[v := buffers[b]])
    {
      assert forall u | u in copyOnRead :: RefCountIsOne(u);
      tensors := tensors[v := b];
    }

    method SetHandle(h: Handle, b: Buffer)
      requires Valid() && b in buffers && forall u | u in copyOnRead :: tensors[u] != b
      modifies this`handles
      ensures Valid() && handles == old(handles)[h := b]
      ensures Contents() == old(Contents()).(tensors := old(Contents()).tensors[h := buffers[b]])
    {
      assert forall u | u in copyOnRead :: RefCountIsOne(u);
      handles := handles[h := b];
    }

    // Gives the variable a copy of its own.
    method CopyVariable(v: Var)
      requires Valid() && v in tensors
      modifies this
      ensures copyOnRead == old(copyOnRead) && handles == old(handles) && tensors.Keys == old(tensors.Keys)
      ensures Valid() && Contents() == old(Contents()) && RefCountIsOne(v)
    {
      var copy := NewBuffer(buffers[tensors[v]]);
      SetVariable(v, copy);
    }

    // EnsureSparseVariableAccess; available tells whether memory for a copy can be had.
    method EnsureSparseVariableAccess(v: Var, available: bool) returns (ok: bool)
      requires Valid() && v in tensors
      modifies this
      ensures Valid() && Contents() == old(Contents())
      ensures copyOnRead == old(copyOnRead) + if ok then {v} else {}
      // It copies only if somebody else uses the buffer and the mode is not yet on.
      ensures ok <==> available || v in old(copyOnRead) || old(RefCountIsOne(v))
      ensures v in old(copyOnRead) || old(RefCountIsOne(v)) ==> tensors == old(tensors)
      ensures !ok ==> !available && tensors == old(tensors) && handles == old(handles)
      ensures handles == old(handles) && tensors.Keys == old(tensors.Keys)
    {
      if v in copyOnRead {
        return true;
      }
      if RefCountIsOne(v) {
        copyOnRead := copyOnRead + {v};
        return true;
      }
      if !available {
        return false;
      }
      CopyVariable(v);
      copyOnRead := copyOnRead + {v};
      ok := true;
    }

    // PrepareToUpdateVariable
    method PrepareToUpdateVariable(v: Var, available: bool) returns (ok: bool)
      requires Valid() && v in tensors
      modifies this
      ensures copyOnRead == old(copyOnRead) && handles == old(handles) && tensors.Keys == old(tensors.Keys)
      ensures Valid() && Contents() == old(Contents())
      ensures ok ==> RefCountIsOne(v)
      // It copies only if somebody else uses the buffer or might.
      ensures ok <==> available || (v !in old(copyOnRead) && old(RefCountIsOne(v)))
      ensures v !in old(copyOnRead) && old(RefCountIsOne(v)) ==> tensors == old(tensors)
    {
      if v in copyOnRead || !RefCountIsOne(v) {
        if !available {
          return false;
        }
        CopyVariable(v);
      }
      ok := true;
    }

    // A kernel writes to the buffer of the variable: everything that shares the buffer changes.
    method WriteThrough(v: Var, value: Value)
      requires Valid() && v in tensors && RefCountIsOne(v)
      modifies this`buffers
      ensures Valid() && Contents() == old(Contents()).(variables := old(Contents()).variables[v := value])
    {
      buffers := buffers[tensors[v] := value];
      assert forall u | u in tensors :: buffers[tensors[u]] == if u == v then value else old(buffers)[tensors[u]];
    }

    // TF_AssignVariable
    method AssignVariable(v: Var, value: Handle, validateShape: bool, available: bool) returns (ok: bool)
      requires Valid() && value in handles
      modifies this
      ensures Valid()
      ensures ok <==> Accepted(old(Contents()), Assign(v, value, validateShape)) && (available || v !in old(copyOnRead))
      // The variable is new, or need not keep its shape, or does keep it.
      ensures ok <==>
                && (v !in old(tensors) || !validateShape
                    || old(Contents()).variables[v].shape == old(Contents()).tensors[value].shape)
                && (available || v !in old(copyOnRead))
      ensures Contents() == if !ok then old(Contents())
                            else old(Contents()).(variables := old(Contents()).variables[v := old(Contents()).tensors[value]])
    {
      if v !in tensors {
        assert forall u | u in copyOnRead :: RefCountIsOne(u);
        SetVariable(v, handles[value]);
      }
      if validateShape && buffers[tensors[v]].shape != buffers[handles[value]].shape {
        return false;
      }
      if v in copyOnRead {
        if !available {
          return false;
        }
        var copy := NewBuffer(buffers[handles[value]]);
        SetVariable(v, copy);
      } else {
        assert forall u | u in copyOnRead :: RefCountIsOne(u);
        SetVariable(v, handles[value]);
      }
      ok := true;
    }

    // TF_AssignUpdateVariable
    method AssignUpdateVariable(v: Var, value: Handle, code: int, available: bool, update: UpdateFunc) returns (ok: bool)
      requires Valid() && v in tensors && value in handles
      modifies this
      ensures Valid() && Meaning(old(Contents()), Contents(), AssignUpdate(v, value, code), available, ok, update)
      // It succeeds if the shapes agree and the variable need not be copied, or can be.
      ensures ok <==>
                && old(Contents()).variables[v].shape == old(Contents()).tensors[value].shape
                && (available || (v !in old(copyOnRead) && old(RefCountIsOne(v))))
      // The variable keeps its shape and gets what the update makes of its own data and the data of
      // the value, in this order; all other variables and all tensors stay.
      ensures ok ==>
                && Contents().tensors == old(Contents()).tensors
                && Contents().variables == old(Contents()).variables[
                     v := Value(old(Contents()).variables[v].shape,
                                update(code, old(Contents()).variables[v].data, old(Contents()).tensors[value].data))]
      ensures !ok ==> Contents() == old(Contents())
    {
      if buffers[tensors[v]].shape != buffers[handles[value]].shape {
        return false;
      }
      ok := PrepareToUpdateVariable(v, available);
      if ok {
        ghost var prepared := Contents();
        WriteThrough(v, Updated(update, code, buffers[tensors[v]], buffers[handles[value]].data));
        assert prepared.variables[v] == old(Contents()).variables[v];
        assert prepared.tensors[value] == old(Contents()).tensors[value];
      }
    }

    // TF_GetInputTensorFromVariable, followed by the write of the kernel that asked for the tensor
    method WriteVariable(v: Var, sparse: bool, code: int, available: bool, update: UpdateFunc) returns (ok: bool)
      requires Valid() && v in tensors
      modifies this
      ensures Valid() && Meaning(old(Contents()), Contents(), Write(v, sparse, code), available, ok, update)
      ensures ok <==>
                || available || (v !in old(copyOnRead) && old(RefCountIsOne(v)))
                || (sparse && v in old(copyOnRead))
      // The variable keeps its shape and gets what the kernel makes of its data; all other variables
      // and all tensors stay.
      ensures ok ==>
                && Contents().tensors == old(Contents()).tensors
                && Contents().variables == old(Contents()).variables[
                     v := Value(old(Contents()).variables[v].shape, update(code, old(Contents()).variables[v].data, []))]
      ensures !ok ==> Contents() == old(Contents())
    {
      if sparse {
        ok := EnsureSparseVariableAccess(v, available);
      } else {
        ok := PrepareToUpdateVariable(v, available);
      }
      if ok {
        ghost var prepared := Contents();
        WriteThrough(v, Updated(update, code, buffers[tensors[v]], []));
        assert prepared.variables[v] == old(Contents()).variables[v];
      }
    }

    // ReadVariableOp: copies in copy-on-read mode and shares the buffer otherwise.
    method ReadVariable(v: Var, into: Handle, available: bool) returns (ok: bool)
      requires Valid() && v in tensors
      modifies this
      ensures Valid() && (ok <==> available || v !in old(copyOnRead))
      ensures Contents() == if ok then old(Contents()).(tensors := old(Contents()).tensors[into := old(Contents()).variables[v]])
                            else old(Contents())
    {
      ok := v !in copyOnRead || available;
      if v !in copyOnRead {
        assert forall u | u in copyOnRead :: RefCountIsOne(u);
        SetHandle(into, tensors[v]);
      } else if available {
        var copy := NewBuffer(buffers[tensors[v]]);
        SetHandle(into, copy);
      }
    }

    // DisableCopyOnReadOp
    method DisableCopyOnReadMode(v: Var)
      requires Valid()
      modifies this`copyOnRead
      ensures Valid() && Contents() == old(Contents()) && v !in copyOnRead
    {
      copyOnRead := copyOnRead - {v};
    }

    method DropTensor(h: Handle)
      requires Valid()
      modifies this`handles
      ensures Valid() && Contents() == old(Contents()).(tensors := old(Contents()).tensors - {h})
    {
      assert forall u | u in copyOnRead :: RefCountIsOne(u);
      handles := handles - {h};
    }

    method Execute(op: Op, available: bool, update: UpdateFunc) returns (ok: bool)
      requires Valid()
      modifies this
      ensures Valid() && Meaning(old(Contents()), Contents(), op, available, ok, update)
    {
      match op
      case Assign(v, value, validateShape) =>
        if value !in handles {
          return false;
        }
        ok := AssignVariable(v, value, validateShape, available);
      case AssignUpdate(v, value, code) =>
        if v !in tensors || value !in handles {
          return false;
        }
        ok := AssignUpdateVariable(v, value, code, available, update);
      case Write(v, sparse, code) =>
        if v !in tensors {
          return false;
        }
        ok := WriteVariable(v, sparse, code, available, update);
      case EnsureSparse(v) =>
        if v !in tensors {
          return false;
        }
        ok := EnsureSparseVariableAccess(v, available);
      case Read(v, into) =>
        if v !in tensors {
          return false;
        }
        ok := ReadVariable(v, into, available);
      case DisableCopyOnRead(v) =>
        if v !in tensors {
          return false;
        }
        DisableCopyOnReadMode(v);
        ok := true;
      case Drop(h) =>
        DropTensor(h);
        ok := true;
    }

    // Any sequence of operations: what can be observed is a history of plain values.
    method Run(ops: seq<Op>, available: seq<bool>, update: UpdateFunc) returns (oks: seq<bool>, ghost history: seq<Values>)
      requires Valid() && |available| == |ops|
      modifies this
      ensures Valid() && |oks| == |ops| && IsHistory(history, ops, available, oks, update)
      ensures history[0] == old(Contents()) && history[|ops|] == Contents()
    {
      oks, history := [], [Contents()];
      for i := 0 to |ops|
        invariant Valid() && |oks| == i && |history| == i + 1
        invariant history[0] == old(Contents()) && history[i] == Contents()
        invariant forall k | 0 <= k < i :: Meaning(history[k], history[k + 1], ops[k], available[k], oks[k], update)
      {
        var ok := Execute(ops[i], available[i], update);
        oks, history := oks + [ok], history + [Contents()];
      }
    }
  }

  ghost predicate IsHistory(history: seq<Values>, ops: seq<Op>, available: seq<bool>, oks: seq<bool>, update: UpdateFunc)
    requires |oks| == |available| == |ops|
  {
    && |history| == |ops| + 1
    && forall k | 0 <= k < |ops| :: Meaning(history[k], history[k + 1], ops[k], available[k], oks[k], update)
  }

  // A tensor that has been read stays as it was read, whatever happens to the variable, until
  // the kernel lets go of it or reads into it again.
  lemma {:induction false} ReadsAreSnapshots(history: seq<Values>, ops: seq<Op>, available: seq<bool>, oks: seq<bool>,
                                             update: UpdateFunc, i: nat, j: nat, h: Handle)
    requires |oks| == |available| == |ops| && IsHistory(history, ops, available, oks, update)
    requires i < j <= |ops| && ops[i].Read? && ops[i].into == h && oks[i]
    requires forall k | i < k < j :: ops[k] != Drop(h) && !(ops[k].Read? && ops[k].into == h)
    ensures ops[i].v in history[i].variables && h in history[j].tensors
    ensures history[j].tensors[h] == history[i].variables[ops[i].v]
  {
    if i + 1 == j {
      assert Meaning(history[i], history[i + 1], ops[i], available[i], oks[i], update);
    } else {
      ReadsAreSnapshots(history, ops, available, oks, update, i, j - 1, h);
      assert Meaning(history[j - 1], history[j], ops[j - 1], available[j - 1], oks[j - 1], update);
    }
  }
}

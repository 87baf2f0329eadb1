/** The mutator for method-call (`send`) nodes: which variants of a call
    `receiver.selector(arguments)` it emits, and in which order. */
module MutatorSend {
  import opened Wrappers
  import opened Ast

  /** The constant node-type and selector sets the rules consult. */
  datatype TypeSets = TypeSets(
    notAssignable: set<string>,   // NOT_ASSIGNABLE: receiver types that cannot stand alone as a result
    notStandalone: set<string>,   // NOT_STANDALONE: argument types that cannot stand alone
    keywords: set<string>,        // KEYWORDS
    methodOperators: set<string>, // METHOD_OPERATORS
    opAssign: set<string>)        // OP_ASSIGN: compound-assignment node types

  /** What the call's metadata says about it. */
  datatype SendMeta = SendMeta(indexAssignment: bool, binaryMethodOperator: bool, attributeAssignment: bool)

  /** What the collaborators of this mutator produce for the node at hand:
      the mutator applied to a child node, the singleton stand-ins, and the
      output of the index-assignment, binary-operator and
      attribute-assignment mutators. */
  datatype Collaborators = Collaborators(
    mutate: Node -> seq<Node>,
    singletons: seq<Node>,
    indexAssign: seq<Node>,
    binary: seq<Node>,
    attributeAssignment: seq<Node>)

  /** Everything besides the node itself the rules depend on. */
  datatype Setting = Setting(types: TypeSets, meta: SendMeta, parentType: Option<string>, collab: Collaborators)

  /** SELECTOR_REPLACEMENTS: a directed table of behaviourally close
      selectors, as its ordered list of entries. */
  const SelectorReplacementTable: seq<(string, seq<string>)> := [
    ("reverse_map", ["map", "each"]),
    ("kind_of?", ["instance_of?"]),
    ("is_a?", ["instance_of?"]),
    ("reverse_each", ["each"]),
    ("reverse_merge", ["merge"]),
    ("map", ["each"]),
    ("send", ["public_send", "__send__"]),
    ("__send__", ["public_send"]),
    ("gsub", ["sub"]),
    ("eql?", ["equal?"]),
    ("to_s", ["to_str"]),
    ("to_i", ["to_int"]),
    ("to_a", ["to_ary"]),
    ("at", ["fetch"]),
    ("[]", ["at", "fetch"]),
    ("==", ["eql?", "equal?"]),
    (">=", [">", "==", "eql?", "equal?"]),
    ("<=", ["<", "==", "eql?", "equal?"]),
    (">", ["==", ">=", "eql?", "equal?"]),
    ("<", ["==", "<=", "eql?", "equal?"])
  ]

  /** `table.fetch(key, EMPTY_ARRAY)` on a list of entries. */
  function Fetch(table: seq<(string, seq<string>)>, key: string): seq<string>
  {
    if table == [] then []
    else if table[0].0 == key then table[0].1
    else Fetch(table[1..], key)
  }

  /** The table has twenty entries and no selector is a key twice. */
  lemma SelectorReplacementTableShape()
    ensures |SelectorReplacementTable| == 20
    ensures forall i, j :: 0 <= i < j < |SelectorReplacementTable| ==>
      SelectorReplacementTable[i].0 != SelectorReplacementTable[j].0
  {
  }

  /** In a table whose keys are distinct, looking a key up gives the value of
      its entry, and nothing for a key without one. */
  lemma {:induction false} FetchUniqueKey(table: seq<(string, seq<string>)>, key: string)
    requires forall i, j :: 0 <= i < j < |table| ==> table[i].0 != table[j].0
    ensures forall i :: 0 <= i < |table| && table[i].0 == key ==> Fetch(table, key) == table[i].1
    ensures (forall i :: 0 <= i < |table| ==> table[i].0 != key) ==> Fetch(table, key) == []
  {
    if table != [] {
      FetchUniqueKey(table[1..], key);
      assert forall i :: 1 <= i < |table| ==> table[1..][i - 1] == table[i];
    }
  }

  /** `SELECTOR_REPLACEMENTS.fetch(selector, EMPTY_ARRAY)`: the replacements
      of the selector's entry, and none for a selector without one. */
  function Replacements(selector: string): (r: seq<string>)
    ensures forall i :: 0 <= i < |SelectorReplacementTable| && SelectorReplacementTable[i].0 == selector ==>
      r == SelectorReplacementTable[i].1
    ensures (forall i :: 0 <= i < |SelectorReplacementTable| ==> SelectorReplacementTable[i].0 != selector) ==> r == []
  {
    SelectorReplacementTableShape();
    FetchUniqueKey(SelectorReplacementTable, selector);
    Fetch(SelectorReplacementTable, selector)
  }

  /** An entry is sound when it never maps a selector to itself and names no
      replacement twice. */
  predicate SoundEntry(e: (string, seq<string>))
  {
    e.0 !in e.1 && forall i, j :: 0 <= i < j < |e.1| ==> e.1[i] != e.1[j]
  }

  lemma {:induction false} FetchFromSoundTable(table: seq<(string, seq<string>)>, key: string)
    requires forall i :: 0 <= i < |table| ==> SoundEntry(table[i])
    ensures key !in Fetch(table, key)
    ensures forall i, j :: 0 <= i < j < |Fetch(table, key)| ==> Fetch(table, key)[i] != Fetch(table, key)[j]
  {
    if table != [] && table[0].0 != key {
      FetchFromSoundTable(table[1..], key);
    } else if table != [] {
      assert SoundEntry(table[0]);
    }
  }

  /** No table entry maps a selector to itself or names a replacement twice,
      so every selector variant is a new node. */
  lemma ReplacementsAreNew(selector: string)
    ensures selector !in Replacements(selector)
    ensures forall i, j :: 0 <= i < j < |Replacements(selector)| ==> Replacements(selector)[i] != Replacements(selector)[j]
  {
    var t := SelectorReplacementTable;
    forall i | 0 <= i < |t| ensures SoundEntry(t[i]) {
    }
    FetchFromSoundTable(t, selector);
  }

  /** Looking a key up finds its first entry, and nothing when it has none. */
  lemma {:induction false} FetchFirstEntry(table: seq<(string, seq<string>)>, key: string, i: nat)
    requires i <= |table|
    requires forall j :: 0 <= j < i ==> table[j].0 != key
    requires i < |table| ==> table[i].0 == key
    ensures Fetch(table, key) == if i < |table| then table[i].1 else []
  {
    if i > 0 {
      FetchFirstEntry(table[1..], key, i - 1);
    }
  }

  /** The table is one-directional: `==` may become `eql?` or `equal?`, `eql?`
      only `equal?`, and `equal?` nothing; `<` and `<=` are not mirror images
      of each other. */
  lemma EqualsReplacements()
    ensures Replacements("==") == ["eql?", "equal?"]
  {
    FetchFirstEntry(SelectorReplacementTable, "==", 15);
  }

  lemma EqlReplacements()
    ensures Replacements("eql?") == ["equal?"]
  {
    FetchFirstEntry(SelectorReplacementTable, "eql?", 9);
  }

  lemma EqualReplacements()
    ensures Replacements("equal?") == []
  {
    FetchFirstEntry(SelectorReplacementTable, "equal?", |SelectorReplacementTable|);
  }

  lemma LessThanReplacements()
    ensures Replacements("<") == ["==", "<=", "eql?", "equal?"]
  {
    FetchFirstEntry(SelectorReplacementTable, "<", 19);
  }

  lemma LessOrEqualReplacements()
    ensures Replacements("<=") == ["<", "==", "eql?", "equal?"]
  {
    FetchFirstEntry(SelectorReplacementTable, "<=", 17);
  }

  // ---------------------------------------------------------------------
  // The variants each rule emits, as functions of the node.

  /** `emit_naked_receiver`: the receiver on its own. */
  function NakedReceiver(t: TypeSets, receiver: Option<Node>): (r: seq<Node>)
    ensures r != [] <==> receiver.Some? && Type(receiver.value) !in t.notAssignable
    ensures r != [] ==> r == [receiver.value]
  {
    if receiver.Some? && Type(receiver.value) !in t.notAssignable then [receiver.value] else []
  }

  /** `emit_selector_replacement`: the call with each table replacement of
      its selector, in table order. */
  function SelectorVariants(receiver: Option<Node>, selector: string, arguments: seq<Node>): seq<Node>
  {
    var rs := Replacements(selector);
    seq(|rs|, i requires 0 <= i < |rs| => Send(receiver, rs[i], arguments))
  }

  /** There is one selector variant per table replacement, in table order,
      differing from the call only in its selector; none is the call itself
      and no two are alike. */
  lemma SelectorVariantsMeaning(receiver: Option<Node>, selector: string, arguments: seq<Node>)
    ensures var vs := SelectorVariants(receiver, selector, arguments);
      && |vs| == |Replacements(selector)|
      && (forall i :: 0 <= i < |vs| ==> vs[i] == Send(receiver, Replacements(selector)[i], arguments))
      && Send(receiver, selector, arguments) !in vs
      && (forall i, j :: 0 <= i < j < |vs| ==> vs[i] != vs[j])
  {
    ReplacementsAreNew(selector);
  }

  /** `emit_argument_propagation`: the sole argument on its own. */
  function ArgumentPropagation(t: TypeSets, arguments: seq<Node>): (r: seq<Node>)
    ensures r != [] <==> |arguments| == 1 && Type(arguments[0]) !in t.notStandalone
    ensures r != [] ==> r == [arguments[0]]
  {
    if |arguments| == 1 && Type(arguments[0]) !in t.notStandalone then [arguments[0]] else []
  }

  /** The parent is a compound assignment such as `a.b += 1`. */
  predicate InOpAssign(s: Setting)
  {
    s.parentType.Some? && s.parentType.value in s.types.opAssign
  }

  /** `emit_implicit_self`: `self.foo` becomes `foo`, except where dropping
      the receiver would change how the code parses. */
  function ImplicitSelf(s: Setting, receiver: Option<Node>, selector: string, arguments: seq<Node>): (r: seq<Node>)
    ensures r != [] <==>
      && receiver.Some? && IsSelf(receiver.value)
      && selector !in s.types.keywords
      && selector !in s.types.methodOperators
      && !InOpAssign(s)
      && !s.meta.attributeAssignment
    ensures r != [] ==> r == [Send(None, selector, arguments)]
  {
    if receiver.Some? && IsSelf(receiver.value) &&
       !(selector in s.types.keywords || selector in s.types.methodOperators || InOpAssign(s) || s.meta.attributeAssignment)
    then [Send(None, selector, arguments)]
    else []
  }

  /** `emit_receiver_mutations { |node| !n_nil?(node) }` over the receiver
      mutations `ms`: the call with each non-nil one as its receiver. */
  function ReceiverVariants(ms: seq<Node>, selector: string, arguments: seq<Node>): seq<Node>
  {
    if ms == [] then []
    else
      var last := ms[|ms| - 1];
      ReceiverVariants(ms[..|ms| - 1], selector, arguments) +
      (if IsNil(last) then [] else [Send(Some(last), selector, arguments)])
  }

  /** Receiver variants keep the selector and the arguments, and their
      receiver is a non-nil mutation of the receiver; every non-nil mutation
      is used. */
  lemma {:induction false} ReceiverVariantsShape(ms: seq<Node>, selector: string, arguments: seq<Node>)
    ensures forall v :: v in ReceiverVariants(ms, selector, arguments) ==>
      v.Send? && v.selector == selector && v.arguments == arguments &&
      v.receiver.Some? && v.receiver.value in ms && !IsNil(v.receiver.value)
    ensures forall m :: m in ms && !IsNil(m) ==> Send(Some(m), selector, arguments) in ReceiverVariants(ms, selector, arguments)
    ensures |ReceiverVariants(ms, selector, arguments)| <= |ms|
  {
    if ms != [] {
      var init, last := ms[..|ms| - 1], ms[|ms| - 1];
      ReceiverVariantsShape(init, selector, arguments);
      assert ms == init + [last];
      assert forall m :: m in ms <==> m in init || m == last;
      var added := if IsNil(last) then [] else [Send(Some(last), selector, arguments)];
      assert ReceiverVariants(ms, selector, arguments) == ReceiverVariants(init, selector, arguments) + added;
    }
  }

  /** `mutate_receiver`: nothing without a receiver; otherwise the
      implicit-self variant, then the receiver variants. */
  function MutateReceiverVariants(s: Setting, receiver: Option<Node>, selector: string, arguments: seq<Node>): seq<Node>
  {
    if receiver.None? then []
    else ImplicitSelf(s, receiver, selector, arguments) +
         ReceiverVariants(s.collab.mutate(receiver.value), selector, arguments)
  }

  /** `mutate_child(index)`: the call with argument `i` replaced by each of
      its mutations. */
  function ChildVariants(mutate: Node -> seq<Node>, receiver: Option<Node>, selector: string, arguments: seq<Node>, i: nat): seq<Node>
    requires i < |arguments|
  {
    var ms := mutate(arguments[i]);
    seq(|ms|, j requires 0 <= j < |ms| => Send(receiver, selector, arguments[i := ms[j]]))
  }

  /** `delete_child(index)`: the call without argument `i`. */
  function Deletion(receiver: Option<Node>, selector: string, arguments: seq<Node>, i: nat): Node
    requires i < |arguments|
  {
    Send(receiver, selector, arguments[..i] + arguments[i + 1..])
  }

  /** The per-argument variants for the first `n` arguments: for each index
      in order, its child variants followed by its deletion. */
  function ArgumentVariantsUpTo(mutate: Node -> seq<Node>, receiver: Option<Node>, selector: string, arguments: seq<Node>, n: nat): seq<Node>
    requires n <= |arguments|
  {
    if n == 0 then []
    else ArgumentVariantsUpTo(mutate, receiver, selector, arguments, n - 1) +
         ChildVariants(mutate, receiver, selector, arguments, n - 1) +
         [Deletion(receiver, selector, arguments, n - 1)]
  }

  /** `mutate_arguments`: the call without arguments, then the per-argument
      variants. */
  function ArgumentVariants(mutate: Node -> seq<Node>, receiver: Option<Node>, selector: string, arguments: seq<Node>): seq<Node>
  {
    [Send(receiver, selector, [])] + ArgumentVariantsUpTo(mutate, receiver, selector, arguments, |arguments|)
  }

  /** Exactly one argument differs: replaced by one of its mutations, or
      deleted. */
  ghost predicate OneArgumentChanged(mutate: Node -> seq<Node>, arguments: seq<Node>, changed: seq<Node>)
  {
    exists i :: 0 <= i < |arguments| &&
      ((|changed| == |arguments| && changed == arguments[i := changed[i]] && changed[i] in mutate(arguments[i])) ||
       changed == arguments[..i] + arguments[i + 1..])
  }

  function MutationCount(mutate: Node -> seq<Node>, arguments: seq<Node>, n: nat): nat
    requires n <= |arguments|
  {
    if n == 0 then 0 else MutationCount(mutate, arguments, n - 1) + |mutate(arguments[n - 1])|
  }

  /** Each per-argument variant keeps the receiver and the selector and
      changes exactly one argument; there is one variant per child mutation
      plus one deletion per argument. */
  lemma {:induction false} ArgumentVariantsShape(mutate: Node -> seq<Node>, receiver: Option<Node>, selector: string, arguments: seq<Node>, n: nat)
    requires n <= |arguments|
    ensures |ArgumentVariantsUpTo(mutate, receiver, selector, arguments, n)| == n + MutationCount(mutate, arguments, n)
    ensures forall v :: v in ArgumentVariantsUpTo(mutate, receiver, selector, arguments, n) ==>
      v.Send? && v.receiver == receiver && v.selector == selector && OneArgumentChanged(mutate, arguments, v.arguments)
  {
    if n > 0 {
      var i := n - 1;
      ArgumentVariantsShape(mutate, receiver, selector, arguments, i);
      var cs := ChildVariants(mutate, receiver, selector, arguments, i);
      forall v | v in cs
        ensures v.Send? && v.receiver == receiver && v.selector == selector && OneArgumentChanged(mutate, arguments, v.arguments)
      {
        var j :| 0 <= j < |cs| && cs[j] == v;
        var m := mutate(arguments[i])[j];
        assert v.arguments == arguments[i := m];
      }
      var d := Deletion(receiver, selector, arguments, i);
      assert OneArgumentChanged(mutate, arguments, d.arguments);
    }
  }

  /** `normal_dispatch`: naked receiver, selector replacements, argument
      propagation, receiver mutations, argument mutations, in that order. */
  function NormalVariants(s: Setting, receiver: Option<Node>, selector: string, arguments: seq<Node>): seq<Node>
  {
    NakedReceiver(s.types, receiver) +
    SelectorVariants(receiver, selector, arguments) +
    ArgumentPropagation(s.types, arguments) +
    MutateReceiverVariants(s, receiver, selector, arguments) +
    ArgumentVariants(s.collab.mutate, receiver, selector, arguments)
  }

  /** `non_index_dispatch` */
  function NonIndexVariants(s: Setting, receiver: Option<Node>, selector: string, arguments: seq<Node>): seq<Node>
  {
    if s.meta.binaryMethodOperator then s.collab.binary
    else if s.meta.attributeAssignment then s.collab.attributeAssignment
    else NormalVariants(s, receiver, selector, arguments)
  }

  /** `dispatch`: the singletons, then the variants of exactly one route. */
  function DispatchVariants(s: Setting, receiver: Option<Node>, selector: string, arguments: seq<Node>): seq<Node>
  {
    s.collab.singletons +
    (if s.meta.indexAssignment then s.collab.indexAssign else NonIndexVariants(s, receiver, selector, arguments))
  }

  /** The routes are exclusive and tried in order: index assignment, binary
      operator, attribute assignment, and only then the normal rules. */
  lemma DispatchIsExclusive(s: Setting, receiver: Option<Node>, selector: string, arguments: seq<Node>)
    ensures var out := DispatchVariants(s, receiver, selector, arguments);
      && (s.meta.indexAssignment ==> out == s.collab.singletons + s.collab.indexAssign)
      && (!s.meta.indexAssignment && s.meta.binaryMethodOperator ==> out == s.collab.singletons + s.collab.binary)
      && (!s.meta.indexAssignment && !s.meta.binaryMethodOperator && s.meta.attributeAssignment ==>
            out == s.collab.singletons + s.collab.attributeAssignment)
      && (!s.meta.indexAssignment && !s.meta.binaryMethodOperator && !s.meta.attributeAssignment ==>
            out == s.collab.singletons + NormalVariants(s, receiver, selector, arguments))
  {
  }

  /** No per-argument variant is the call itself when the child mutator
      never returns its input. */
  lemma {:induction false} ArgumentVariantsAreNew(mutate: Node -> seq<Node>, receiver: Option<Node>, selector: string, arguments: seq<Node>)
    requires forall c :: c !in mutate(c)
    ensures Send(receiver, selector, arguments) !in ArgumentVariantsUpTo(mutate, receiver, selector, arguments, |arguments|)
  {
    var input := Send(receiver, selector, arguments);
    ArgumentVariantsShape(mutate, receiver, selector, arguments, |arguments|);
    forall i | 0 <= i < |arguments|
      ensures arguments[i] !in mutate(arguments[i]) && arguments != arguments[..i] + arguments[i + 1..]
    {
      assert |arguments[..i] + arguments[i + 1..]| == |arguments| - 1;
    }
    assert !OneArgumentChanged(mutate, arguments, arguments);
  }

  /** The normal rules never reproduce the call itself, provided it has
      arguments and the child mutator never returns its input. Without
      arguments the zero-argument form is the call itself. */
  lemma {:induction false} NormalVariantsAreNew(s: Setting, receiver: Option<Node>, selector: string, arguments: seq<Node>)
    requires arguments != []
    requires forall c :: c !in s.collab.mutate(c)
    ensures Send(receiver, selector, arguments) !in NormalVariants(s, receiver, selector, arguments)
  {
    var input := Send(receiver, selector, arguments);
    var mutate := s.collab.mutate;
    var a := NakedReceiver(s.types, receiver);
    var b := SelectorVariants(receiver, selector, arguments);
    var c := ArgumentPropagation(s.types, arguments);
    var d := MutateReceiverVariants(s, receiver, selector, arguments);
    var rest := ArgumentVariantsUpTo(mutate, receiver, selector, arguments, |arguments|);
    if receiver.Some? {
      assert receiver.value < input;
      ReceiverVariantsShape(mutate(receiver.value), selector, arguments);
      assert input !in ReceiverVariants(mutate(receiver.value), selector, arguments);
    }
    assert input !in a;
    ReplacementsAreNew(selector);
    assert input !in b;
    assert arguments[0] < input;
    assert input !in c;
    assert input !in d;
    ArgumentVariantsAreNew(mutate, receiver, selector, arguments);
    assert input !in [Send(receiver, selector, [])] + rest;
    assert NormalVariants(s, receiver, selector, arguments) == a + b + c + d + ([Send(receiver, selector, [])] + rest);
  }

  lemma ZeroArgumentFormOfArgumentlessCall(s: Setting, receiver: Option<Node>, selector: string)
    ensures Send(receiver, selector, []) in NormalVariants(s, receiver, selector, [])
  {
    assert ArgumentVariants(s.collab.mutate, receiver, selector, [])[0] == Send(receiver, selector, []);
  }

  lemma AppendInTwoSteps<T>(before: seq<T>, mid: seq<T>, after: seq<T>, a: seq<T>, b: seq<T>)
    requires mid == before + a && after == mid + b
    ensures after == before + (a + b)
  {
  }

  lemma AppendAssociates<T>(o: seq<T>, a: seq<T>, b: seq<T>, c: seq<T>, d: seq<T>, e: seq<T>)
    ensures o + a + b + c + d + e == o + (a + b + c + d + e)
  {
  }

  // ---------------------------------------------------------------------
  // The mutator object: the node's parts, its setting, and the emission
  // buffer that its dispatch methods append to.

  class SendMutator {
    const setting: Setting
    const receiver: Option<Node>
    const selector: string
    const arguments: seq<Node>
    var output: seq<Node>

    constructor (setting: Setting, receiver: Option<Node>, selector: string, arguments: seq<Node>)
      ensures this.setting == setting && this.receiver == receiver
      ensures this.selector == selector && this.arguments == arguments
      ensures output == []
    {
      this.setting := setting;
      this.receiver := receiver;
      this.selector := selector;
      this.arguments := arguments;
      output := [];
    }

    /** `emit` */
    method Emit(n: Node)
      modifies this
      ensures output == old(output) + [n]
    {
      output := output + [n];
    }

    /** `emit_singletons` */
    method EmitSingletons()
      modifies this
      ensures output == old(output) + setting.collab.singletons
    {
      output := output + setting.collab.singletons;
    }

    /** `run(mutator)`: emit what another mutator produces for the node. */
    method Run(variants: seq<Node>)
      modifies this
      ensures output == old(output) + variants
    {
      output := output + variants;
    }

    /** `dispatch` */
    method Dispatch()
      modifies this
      ensures output == old(output) + DispatchVariants(setting, receiver, selector, arguments)
    {
      ghost var before := output;
      EmitSingletons();
      ghost var mid := output;
      if setting.meta.indexAssignment {
        Run(setting.collab.indexAssign);
      } else {
        NonIndexDispatch();
      }
      AppendInTwoSteps(before, mid, output, setting.collab.singletons,
                       if setting.meta.indexAssignment then setting.collab.indexAssign
                       else NonIndexVariants(setting, receiver, selector, arguments));
    }

    /** `non_index_dispatch` */
    method NonIndexDispatch()
      modifies this
      ensures output == old(output) + NonIndexVariants(setting, receiver, selector, arguments)
    {
      if setting.meta.binaryMethodOperator {
        Run(setting.collab.binary);
      } else if setting.meta.attributeAssignment {
        Run(setting.collab.attributeAssignment);
      } else {
        NormalDispatch();
      }
    }

    /** `normal_dispatch` */
    method NormalDispatch()
      modifies this
      ensures output == old(output) + NormalVariants(setting, receiver, selector, arguments)
    {
      ghost var o := output;
      ghost var a := NakedReceiver(setting.types, receiver);
      ghost var b := SelectorVariants(receiver, selector, arguments);
      ghost var c := ArgumentPropagation(setting.types, arguments);
      ghost var d := MutateReceiverVariants(setting, receiver, selector, arguments);
      ghost var e := ArgumentVariants(setting.collab.mutate, receiver, selector, arguments);
      EmitNakedReceiver();
      EmitSelectorReplacement();
      EmitArgumentPropagation();
      MutateReceiver();
      MutateArguments();
      AppendAssociates(o, a, b, c, d, e);
    }

    /** `emit_selector_replacement` */
    method EmitSelectorReplacement()
      modifies this
      ensures output == old(output) + SelectorVariants(receiver, selector, arguments)
    {
      var rs := Replacements(selector);
      var i := 0;
      while i < |rs|
        invariant 0 <= i <= |rs|
        invariant output == old(output) + SelectorVariants(receiver, selector, arguments)[..i]
      {
        EmitSelector(rs[i]);
        assert SelectorVariants(receiver, selector, arguments)[..i + 1] ==
               SelectorVariants(receiver, selector, arguments)[..i] + [Send(receiver, rs[i], arguments)];
        i := i + 1;
      }
      assert SelectorVariants(receiver, selector, arguments)[..i] == SelectorVariants(receiver, selector, arguments);
    }

    /** `emit_selector`: the call with another selector. */
    method EmitSelector(replacement: string)
      modifies this
      ensures output == old(output) + [Send(receiver, replacement, arguments)]
    {
      Emit(Send(receiver, replacement, arguments));
    }

    /** `emit_naked_receiver` */
    method EmitNakedReceiver()
      modifies this
      ensures output == old(output) + NakedReceiver(setting.types, receiver)
    {
      if receiver.Some? && Type(receiver.value) !in setting.types.notAssignable {
        Emit(receiver.value);
      }
    }

    /** `mutate_arguments` */
    method MutateArguments()
      modifies this
      ensures output == old(output) + ArgumentVariants(setting.collab.mutate, receiver, selector, arguments)
    {
      EmitType(receiver, selector);
      var i := 0;
      while i < |arguments|
        invariant 0 <= i <= |arguments|
        invariant output == old(output) + [Send(receiver, selector, [])] +
                            ArgumentVariantsUpTo(setting.collab.mutate, receiver, selector, arguments, i)
      {
        MutateChild(i);
        DeleteChild(i);
        i := i + 1;
      }
    }

    /** `emit_type(receiver, selector)`: a call with the given children only. */
    method EmitType(r: Option<Node>, sel: string)
      modifies this
      ensures output == old(output) + [Send(r, sel, [])]
    {
      Emit(Send(r, sel, []));
    }

    /** `mutate_child(index)` for argument `i` */
    method MutateChild(i: nat)
      requires i < |arguments|
      modifies this
      ensures output == old(output) + ChildVariants(setting.collab.mutate, receiver, selector, arguments, i)
    {
      var ms := setting.collab.mutate(arguments[i]);
      ghost var expected := ChildVariants(setting.collab.mutate, receiver, selector, arguments, i);
      var j := 0;
      while j < |ms|
        invariant 0 <= j <= |ms|
        invariant output == old(output) + expected[..j]
      {
        Emit(Send(receiver, selector, arguments[i := ms[j]]));
        assert expected[..j + 1] == expected[..j] + [expected[j]];
        j := j + 1;
      }
      assert expected[..j] == expected;
    }

    /** `delete_child(index)` for argument `i` */
    method DeleteChild(i: nat)
      requires i < |arguments|
      modifies this
      ensures output == old(output) + [Deletion(receiver, selector, arguments, i)]
    {
      Emit(Send(receiver, selector, arguments[..i] + arguments[i + 1..]));
    }

    /** `emit_argument_propagation` */
    method EmitArgumentPropagation()
      modifies this
      ensures output == old(output) + ArgumentPropagation(setting.types, arguments)
    {
      if |arguments| == 1 && Type(arguments[0]) !in setting.types.notStandalone {
        Emit(arguments[0]);
      }
    }

    /** `mutate_receiver` */
    method MutateReceiver()
      modifies this
      ensures output == old(output) + MutateReceiverVariants(setting, receiver, selector, arguments)
    {
      if receiver.None? {
        return;
      }
      ghost var before := output;
      EmitImplicitSelf();
      ghost var mid := output;
      EmitReceiverMutations();
      AppendInTwoSteps(before, mid, output, ImplicitSelf(setting, receiver, selector, arguments),
                    ReceiverVariants(setting.collab.mutate(receiver.value), selector, arguments));
    }

    /** `emit_receiver_mutations` with the block rejecting nil nodes. */
    method EmitReceiverMutations()
      requires receiver.Some?
      modifies this
      ensures output == old(output) + ReceiverVariants(setting.collab.mutate(receiver.value), selector, arguments)
    {
      var ms := setting.collab.mutate(receiver.value);
      var i := 0;
      while i < |ms|
        invariant 0 <= i <= |ms|
        invariant output == old(output) + ReceiverVariants(ms[..i], selector, arguments)
      {
        assert ms[..i + 1][..i] == ms[..i];
        if !IsNil(ms[i]) {
          EmitReceiver(Some(ms[i]));
        }
        i := i + 1;
      }
      assert ms[..i] == ms;
    }

    /** `emit_receiver(r)`: the call with another receiver. */
    method EmitReceiver(r: Option<Node>)
      modifies this
      ensures output == old(output) + [Send(r, selector, arguments)]
    {
      Emit(Send(r, selector, arguments));
    }

    /** `emit_implicit_self` */
    method EmitImplicitSelf()
      modifies this
      ensures output == old(output) + ImplicitSelf(setting, receiver, selector, arguments)
    {
      if receiver.Some? && IsSelf(receiver.value) &&
         !(selector in setting.types.keywords || selector in setting.types.methodOperators ||
           InOpAssign(setting) || setting.meta.attributeAssignment) {
        EmitReceiver(None);
      }
    }
  }
}

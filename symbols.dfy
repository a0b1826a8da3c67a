/** semantico.py's `TablaSimbolos`: two insertion-checked dictionaries, one for variables and
    one for functions. `Table` is the value of the two dictionaries (Python keeps insertion
    order, so the key order is kept beside each map); `SymbolTable` is the class whose
    methods update them in place and are proved against the functions on `Table`. */
module Symbols {
  import opened Tokens

  /** A type as the analyzer handles it: a type name, or Python's `None` for the nodes that
      yield no type (a string literal, a declaration, ...). */
  type Ty = Option<string>

  /** `(tipo, es_constante)`, the value stored for a variable. */
  datatype VarInfo = VarInfo(tipo: Ty, isConst: bool)

  /** `(tipo_retorno, [tipos_parametros])`, the value stored for a function. */
  datatype FunInfo = FunInfo(ret: string, params: seq<string>)

  /** The dictionary that `get` returns: the entry of a variable or of a function. */
  datatype Entry = VariableEntry(variable: VarInfo) | FunctionEntry(func: FunInfo)

  datatype Table = Table(vars: map<string, VarInfo>, varOrder: seq<string>,
                         funcs: map<string, FunInfo>, funcOrder: seq<string>)
  {
    /** Each key order lists every key of its map exactly once. */
    ghost predicate WellFormed()
    {
      (forall x :: x in varOrder <==> x in vars)
      && (forall i, j :: 0 <= i < j < |varOrder| ==> varOrder[i] != varOrder[j])
      && (forall x :: x in funcOrder <==> x in funcs)
      && (forall i, j :: 0 <= i < j < |funcOrder| ==> funcOrder[i] != funcOrder[j])
    }
  }

  /** The table `TablaSimbolos()` starts with. */
  function EmptyTable(): (t: Table)
    ensures t.WellFormed() && t.vars == map[] && t.funcs == map[]
  {
    Table(map[], [], map[], [])
  }

  /** `declarar_variable`: a fresh name is added; a name already present is an error and
      the table stays as it was. */
  function AddVariable(t: Table, name: string, tipo: Ty, isConst: bool := false): (r: Result<Table>)
    ensures r.Ok? <==> name !in t.vars
    ensures r.Err? ==> r.error == Semantic(DuplicateVariable(name))
    ensures r.Ok? ==> r.value.funcs == t.funcs && r.value.funcOrder == t.funcOrder
    ensures r.Ok? ==> r.value.varOrder == t.varOrder + [name]
  {
    if name in t.vars then Err(Semantic(DuplicateVariable(name)))
    else Ok(t.(vars := t.vars[name := VarInfo(tipo, isConst)], varOrder := t.varOrder + [name]))
  }

  /** `declarar_funcion` */
  function AddFunction(t: Table, name: string, info: FunInfo): (r: Result<Table>)
    ensures r.Ok? <==> name !in t.funcs
    ensures r.Err? ==> r.error == Semantic(DuplicateFunction(name))
    ensures r.Ok? ==> r.value.vars == t.vars && r.value.varOrder == t.varOrder
    ensures r.Ok? ==> r.value.funcOrder == t.funcOrder + [name]
  {
    if name in t.funcs then Err(Semantic(DuplicateFunction(name)))
    else Ok(t.(funcs := t.funcs[name := info], funcOrder := t.funcOrder + [name]))
  }

  /** `obtener_tipo_variable`: fails exactly when the name is absent. */
  function LookupVariable(t: Table, name: string): (r: Result<Ty>)
    ensures r.Ok? <==> name in t.vars
    ensures r.Ok? ==> r.value == t.vars[name].tipo
    ensures r.Err? ==> r.error == Semantic(UndeclaredVariable(name))
  {
    if name in t.vars then Ok(t.vars[name].tipo) else Err(Semantic(UndeclaredVariable(name)))
  }

  /** `obtener_info_funcion`: fails exactly when the name is absent. */
  function LookupFunction(t: Table, name: string): (r: Result<FunInfo>)
    ensures r.Ok? <==> name in t.funcs
    ensures r.Ok? ==> r.value == t.funcs[name]
    ensures r.Err? ==> r.error == Semantic(UndeclaredFunction(name))
  {
    if name in t.funcs then Ok(t.funcs[name]) else Err(Semantic(UndeclaredFunction(name)))
  }

  /** `keys`: the variable names, then the function names, each in insertion order. */
  function Keys(t: Table): (ks: seq<string>)
    ensures forall x :: x in ks <==> x in t.varOrder || x in t.funcOrder
  {
    t.varOrder + t.funcOrder
  }

  /** In a well-formed table `keys` lists every declared name, a name declared both as a
      variable and as a function twice. */
  lemma KeysCoverTable(t: Table)
    requires t.WellFormed()
    ensures forall x :: x in Keys(t) <==> x in t.vars || x in t.funcs
    ensures |Keys(t)| == |t.vars| + |t.funcs|
  {
    OrderCovers(t.varOrder, t.vars.Keys);
    OrderCovers(t.funcOrder, t.funcs.Keys);
  }

  /** `get`: a variable shadows a function of the same name; an unknown key gives `None`. */
  function Get(t: Table, key: string): (e: Option<Entry>)
    ensures e.None? <==> key !in t.vars && key !in t.funcs
    ensures key in t.vars ==> e == Some(VariableEntry(t.vars[key]))
    ensures key !in t.vars && key in t.funcs ==> e == Some(FunctionEntry(t.funcs[key]))
  {
    if key in t.vars then Some(VariableEntry(t.vars[key]))
    else if key in t.funcs then Some(FunctionEntry(t.funcs[key]))
    else None
  }

  /** A list without repetitions that holds exactly the elements of a set is as long as the
      set is large. */
  lemma {:induction false} OrderCovers<T>(order: seq<T>, keys: set<T>)
    requires forall x :: x in order <==> x in keys
    requires forall i, j :: 0 <= i < j < |order| ==> order[i] != order[j]
    ensures |order| == |keys|
    decreases |order|
  {
    if |order| > 0 {
      var last := order[|order| - 1];
      var init := order[..|order| - 1];
      forall x | x in init ensures x in keys - {last} {
        var i :| 0 <= i < |init| && init[i] == x;
        assert order[i] == x && order[|order| - 1] == last;
      }
      forall x | x in keys - {last} ensures x in init {
        var i :| 0 <= i < |order| && order[i] == x;
        assert init[i] == x;
      }
      OrderCovers(init, keys - {last});
    }
  }

  /** Declaring keeps a table well formed, and the new entry is what a lookup then finds
      while every other name keeps what it had. */
  lemma AddVariableThenLookup(t: Table, name: string, tipo: Ty, other: string)
    requires t.WellFormed() && name !in t.vars
    ensures AddVariable(t, name, tipo).value.WellFormed()
    ensures LookupVariable(AddVariable(t, name, tipo).value, name) == Ok(tipo)
    ensures other != name ==> LookupVariable(AddVariable(t, name, tipo).value, other) == LookupVariable(t, other)
  {
  }

  lemma AddFunctionThenLookup(t: Table, name: string, info: FunInfo, other: string)
    requires t.WellFormed() && name !in t.funcs
    ensures AddFunction(t, name, info).value.WellFormed()
    ensures LookupFunction(AddFunction(t, name, info).value, name) == Ok(info)
    ensures other != name ==> LookupFunction(AddFunction(t, name, info).value, other) == LookupFunction(t, other)
  {
  }

  /** `TablaSimbolos`, updated in place by the analyzer. */
  class SymbolTable {
    var variables: map<string, VarInfo>
    var variableOrder: seq<string>
    var functions: map<string, FunInfo>
    var functionOrder: seq<string>

    /** The two dictionaries as a value. */
    function Model(): Table
      reads this
    {
      Table(variables, variableOrder, functions, functionOrder)
    }

    ghost predicate Valid()
      reads this
    {
      Model().WellFormed()
    }

    constructor ()
      ensures Valid() && Model() == EmptyTable()
    {
      variables, variableOrder := map[], [];
      functions, functionOrder := map[], [];
    }

    /** `declarar_variable` */
    method DeclareVariable(name: string, tipo: Ty, isConst: bool := false) returns (r: Result<()>)
      requires Valid()
      modifies this
      ensures Valid()
      ensures r.Ok? <==> name !in old(variables)
      ensures r.Err? ==> r.error == Semantic(DuplicateVariable(name)) && Model() == old(Model())
      ensures r.Ok? ==> Model() == AddVariable(old(Model()), name, tipo, isConst).value
      ensures r.Ok? ==> variables == old(variables)[name := VarInfo(tipo, isConst)]
    {
      if name in variables {
        return Err(Semantic(DuplicateVariable(name)));
      }
      variables := variables[name := VarInfo(tipo, isConst)];
      variableOrder := variableOrder + [name];
      return Ok(());
    }

    /** `declarar_funcion` */
    method DeclareFunction(name: string, info: FunInfo) returns (r: Result<()>)
      requires Valid()
      modifies this
      ensures Valid()
      ensures r.Ok? <==> name !in old(functions)
      ensures r.Err? ==> r.error == Semantic(DuplicateFunction(name)) && Model() == old(Model())
      ensures r.Ok? ==> Model() == AddFunction(old(Model()), name, info).value
      ensures r.Ok? ==> functions == old(functions)[name := info]
    {
      if name in functions {
        return Err(Semantic(DuplicateFunction(name)));
      }
      functions := functions[name := info];
      functionOrder := functionOrder + [name];
      return Ok(());
    }

    /** `obtener_tipo_variable` */
    method GetVariableType(name: string) returns (r: Result<Ty>)
      ensures r.Ok? <==> name in variables
      ensures r.Ok? ==> r.value == variables[name].tipo
      ensures r.Err? ==> r.error == Semantic(UndeclaredVariable(name))
    {
      if name !in variables {
        return Err(Semantic(UndeclaredVariable(name)));
      }
      return Ok(variables[name].tipo);
    }

    /** `obtener_info_funcion` */
    method GetFunctionInfo(name: string) returns (r: Result<FunInfo>)
      ensures r.Ok? <==> name in functions
      ensures r.Ok? ==> r.value == functions[name]
      ensures r.Err? ==> r.error == Semantic(UndeclaredFunction(name))
    {
      if name !in functions {
        return Err(Semantic(UndeclaredFunction(name)));
      }
      return Ok(functions[name]);
    }

    /** `keys` */
    method AllKeys() returns (ks: seq<string>)
      requires Valid()
      ensures forall x :: x in ks <==> x in variables || x in functions
      ensures ks == variableOrder + functionOrder
    {
      ks := variableOrder + functionOrder;
    }

    /** `get` */
    method GetEntry(key: string) returns (e: Option<Entry>)
      ensures e == Get(Model(), key)
      ensures e.None? <==> key !in variables && key !in functions
    {
      if key in variables {
        e := Some(VariableEntry(variables[key]));
      } else if key in functions {
        e := Some(FunctionEntry(functions[key]));
      } else {
        e := None;
      }
    }
  }
}

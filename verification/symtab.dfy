/**
 The abstract symbol table the analyser talks to: entries keyed by
 (name, scope). symtab.c is not part of this model; `Insert` follows the
 classic TINY behaviour of recording only an extra line number when the
 key is already present, and a lookup falls back to the global scope.
 */
module SymTab {

  /** The scope string of global names (functions are registered here). */
  const GlobalScope: string := " "

  /** Declaration line followed by the lines of later references. */
  datatype Entry = Entry(lines: seq<int>, loc: int, kind: string, typ: string)

  type Key = (string, string)

  type Table = map<Key, Entry>

  /** `st_lookup(name, scope) != -1`: the name is registered in `scope`
      itself or globally. A function-scope lookup also sees the global
      names, which is how the analyser finds called functions and global
      variables from inside a function body. */
  predicate Declared(t: Table, name: string, scope: string)
  {
    (name, scope) in t || (name, GlobalScope) in t
  }

  /** `st_insert(name, line, loc, scope, kind, typ)`: a new key gets a
      fresh entry; an existing key only records one more line. */
  function Insert(t: Table, name: string, line: int, loc: int, scope: string,
                  kind: string, typ: string): (r: Table)
    ensures r.Keys == t.Keys + {(name, scope)}
    ensures (name, scope) !in t ==> r[(name, scope)] == Entry([line], loc, kind, typ)
    ensures (name, scope) in t ==>
              r[(name, scope)] == t[(name, scope)].(lines := t[(name, scope)].lines + [line])
    ensures forall k :: k in t && k != (name, scope) ==> r[k] == t[k]
    ensures |r| == |t| + (if (name, scope) in t then 0 else 1)
  {
    var k := (name, scope);
    if k in t then t[k := t[k].(lines := t[k].lines + [line])]
    else t[k := Entry([line], loc, kind, typ)]
  }
}

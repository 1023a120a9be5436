/**
 Go type aliases: following one alias to its end, and the pass that gives every
 alias the struct or string type it stands for, growing the same tables it looks
 the targets up in.
*/
module GoAliases {
  import opened Wrappers
  import opened TsTypes

  datatype AliasProblem = Cyclic | Unsupported | MissingTarget

  predicate WordStart(c: char) { 'a' <= c <= 'z' || 'A' <= c <= 'Z' || c == '_' }

  predicate Identifier(s: string) {
    s != [] && WordStart(s[0]) && forall i :: 0 <= i < |s| ==> WordStart(s[i]) || '0' <= s[i] <= '9'
  }

  /** An identifier, by code points: A to Z, a to z or an underscore, then also 0 to 9. */
  lemma IdentifierIff(s: string)
    ensures Identifier(s) <==>
      && s != "" && !(48 <= s[0] as int <= 57)
      && forall i :: 0 <= i < |s| ==>
           var c := s[i] as int; 65 <= c <= 90 || 97 <= c <= 122 || c == 95 || 48 <= c <= 57
  {
  }

  // One alias

  function Resolve(name: string, aliases: map<string, string>, seen: set<string>): Result<string, AliasProblem>
    decreases aliases.Keys - seen
  {
    if name !in aliases then Ok(name)
    else if name in seen then Err(Cyclic)
    else if !Identifier(aliases[name]) then Err(Unsupported)
    else
      assert name in aliases.Keys - seen;
      Resolve(aliases[name], aliases, seen + {name})
  }

  /** `_resolve_alias`. */
  method ResolveAlias(name: string, aliases: map<string, string>) returns (r: Result<string, AliasProblem>)
    ensures r == Resolve(name, aliases, {})
  {
    var current, seen: set<string> := name, {};
    while current in aliases
      invariant Resolve(current, aliases, seen) == Resolve(name, aliases, {})
      decreases aliases.Keys - seen
    {
      if current in seen {
        return Err(Cyclic);
      }
      assert current in aliases.Keys - seen;
      seen := seen + {current};
      var target := aliases[current];
      if !Identifier(target) {
        return Err(Unsupported);
      }
      current := target;
    }
    return Ok(current);
  }

  /** `k` alias steps lead from `name` to `target`, which is no alias. */
  predicate Leads(name: string, target: string, aliases: map<string, string>, k: nat)
    decreases k
  {
    if k == 0 then name == target && name !in aliases
    else name in aliases && Identifier(aliases[name]) && Leads(aliases[name], target, aliases, k - 1)
  }

  lemma {:induction false} OneLength(name: string, s: string, t: string, aliases: map<string, string>, k: nat, l: nat)
    requires Leads(name, s, aliases, k) && Leads(name, t, aliases, l)
    ensures k == l && s == t
    decreases k
  {
    if k > 0 && l > 0 { OneLength(aliases[name], s, t, aliases, k - 1, l - 1); }
  }

  /** More than `k` steps lead from `name` to `target`. */
  ghost predicate Further(name: string, target: string, aliases: map<string, string>, k: int) {
    exists l: nat :: l > k && Leads(name, target, aliases, l)
  }

  lemma {:induction false} LeadsResolves(name: string, target: string, aliases: map<string, string>, k: nat,
      seen: set<string>)
    requires Leads(name, target, aliases, k)
    requires forall s :: s in seen ==> Further(s, target, aliases, k)
    ensures Resolve(name, aliases, seen) == Ok(target)
    decreases k
  {
    if k > 0 {
      if name in seen {
        var l: nat :| l > k && Leads(name, target, aliases, l);
        OneLength(name, target, target, aliases, k, l);
        assert false;
      }
      forall s | s in seen + {name} ensures Further(s, target, aliases, k - 1) {
        if s == name {
          assert Leads(s, target, aliases, k);
        } else {
          var l: nat :| l > k && Leads(s, target, aliases, l);
        }
      }
      LeadsResolves(aliases[name], target, aliases, k - 1, seen + {name});
    }
  }

  lemma {:induction false} ResolvesLeads(name: string, aliases: map<string, string>, seen: set<string>) returns (k: nat)
    requires Resolve(name, aliases, seen).Ok?
    ensures Leads(name, Resolve(name, aliases, seen).value, aliases, k)
    decreases aliases.Keys - seen
  {
    k := 0;
    if name in aliases {
      assert name in aliases.Keys - seen;
      var l := ResolvesLeads(aliases[name], aliases, seen + {name});
      k := l + 1;
    }
  }

  ghost predicate LeadsTo(name: string, target: string, aliases: map<string, string>) {
    exists k: nat :: Leads(name, target, aliases, k)
  }

  /** Following an alias succeeds exactly when finitely many steps through
      identifiers lead to a name that is no alias, on cyclic tables too. */
  lemma ResolveIff(name: string, target: string, aliases: map<string, string>)
    ensures Resolve(name, aliases, {}) == Ok(target) <==> LeadsTo(name, target, aliases)
  {
    if Resolve(name, aliases, {}) == Ok(target) {
      var k := ResolvesLeads(name, aliases, {});
    }
    if LeadsTo(name, target, aliases) {
      var k: nat :| Leads(name, target, aliases, k);
      LeadsResolves(name, target, aliases, k, {});
    }
  }

  // The pass over all aliases

  type Structs = map<string, GoStruct>

  predicate StandsForStruct(name: string, aliases: map<string, string>, structs: Structs) {
    Resolve(name, aliases, {}).Ok? && Resolve(name, aliases, {}).value in structs
  }

  predicate StandsForString(name: string, aliases: map<string, string>, structs: Structs, strings: set<string>) {
    && !StandsForStruct(name, aliases, structs) && Resolve(name, aliases, {}).Ok?
    && (Resolve(name, aliases, {}).value in strings || Resolve(name, aliases, {}).value == "string")
  }

  /** The tables once the names in `done` have been visited. */
  ghost predicate Filled(done: set<string>, aliases: map<string, string>, structs: Structs, strings: set<string>,
                         structs': Structs, strings': set<string>) {
    && (forall n :: n in structs' <==> n in structs || (n in done && StandsForStruct(n, aliases, structs)))
    && (forall n :: n in structs' ==>
          structs'[n] == if n in structs then structs[n] else structs[Resolve(n, aliases, {}).value])
    && (forall n :: n in strings' <==> n in strings || (n in done && StandsForString(n, aliases, structs, strings)))
  }

  /** What ends a chain is no alias, so filling in aliases does not disturb it. */
  lemma {:induction false} EndIsNoAlias(name: string, aliases: map<string, string>, seen: set<string>)
    requires Resolve(name, aliases, seen).Ok?
    ensures Resolve(name, aliases, seen).value !in aliases
    decreases aliases.Keys - seen
  {
    if name in aliases {
      assert name in aliases.Keys - seen;
      EndIsNoAlias(aliases[name], aliases, seen + {name});
    }
  }

  /** One visit: the target is looked up in the grown tables, with the same
      answer as in the original ones. */
  lemma Visited(done: set<string>, aliases: map<string, string>, structs: Structs, strings: set<string>,
                structs': Structs, strings': set<string>, name: string)
    requires aliases.Keys !! structs.Keys && aliases.Keys !! strings
    requires done <= aliases.Keys && name in aliases
    requires Filled(done, aliases, structs, strings, structs', strings')
    ensures match Resolve(name, aliases, {})
            case Err(_) => Filled(done + {name}, aliases, structs, strings, structs', strings')
            case Ok(t) =>
              if t in structs' then Filled(done + {name}, aliases, structs, strings, structs'[name := structs'[t]],
                  strings')
              else if t in strings' || t == "string" then
                Filled(done + {name}, aliases, structs, strings, structs', strings' + {name})
              else Filled(done + {name}, aliases, structs, strings, structs', strings')
    ensures match Resolve(name, aliases, {})
            case Err(_) => !StandsForStruct(name, aliases, structs) && !StandsForString(name, aliases, structs, strings)
            case Ok(t) =>
              && (StandsForStruct(name, aliases, structs) <==> t in structs')
              && (StandsForString(name, aliases, structs, strings)
                  <==> t !in structs' && (t in strings' || t == "string"))
  {
    hide Resolve;
    if Resolve(name, aliases, {}).Ok? {
      EndIsNoAlias(name, aliases, {});
    }
  }

  /** The alias loop of `merge_go_sources`; `order` is the table's own order.  The
      result is described without it: an alias gets what it finally stands for, and
      there is no problem exactly when every alias stands for something. */
  method FillAliases(structs: Structs, strings: set<string>, aliases: map<string, string>, order: seq<string>)
    returns (structs': Structs, strings': set<string>, problems: seq<(string, AliasProblem)>)
    requires aliases.Keys !! structs.Keys && aliases.Keys !! strings
    requires forall n :: n in order <==> n in aliases
    ensures Filled(aliases.Keys, aliases, structs, strings, structs', strings')
    ensures problems == [] <==> forall n :: n in aliases ==>
              StandsForStruct(n, aliases, structs) || StandsForString(n, aliases, structs, strings)
  {
    structs', strings', problems := structs, strings, [];
    ghost var done: set<string> := {};
    for i := 0 to |order|
      invariant done == (set n | n in order[..i]) <= aliases.Keys
      invariant Filled(done, aliases, structs, strings, structs', strings')
      invariant problems == [] <==> forall n :: n in done ==>
                  StandsForStruct(n, aliases, structs) || StandsForString(n, aliases, structs, strings)
    {
      hide Resolve, Filled, StandsForStruct, StandsForString;
      var name := order[i];
      assert order[..i + 1] == order[..i] + [name];
      Visited(done, aliases, structs, strings, structs', strings', name);
      var target := ResolveAlias(name, aliases);
      match target {
        case Err(p) =>
          problems := problems + [(name, p)];
        case Ok(t) =>
          if t in structs' {
            structs' := structs'[name := structs'[t]];
          } else if t in strings' || t == "string" {
            strings' := strings' + {name};
          } else {
            problems := problems + [(name, MissingTarget)];
          }
      }
      done := done + {name};
    }
    assert order[..|order|] == order;
    assert done == aliases.Keys;
  }

  /** Any two orders fill the same tables. */
  lemma FilledOnce(aliases: map<string, string>, structs: Structs, strings: set<string>,
                   a: Structs, s: set<string>, b: Structs, t: set<string>)
    requires Filled(aliases.Keys, aliases, structs, strings, a, s)
             && Filled(aliases.Keys, aliases, structs, strings, b, t)
    ensures a == b && s == t
  {
    hide StandsForStruct, StandsForString, Resolve;
    assert forall n :: n in a <==> n in b;
    assert forall n :: n in a ==> a[n] == b[n];
    assert forall n :: n in s <==> n in t;
  }
}

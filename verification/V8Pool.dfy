/** The pool of script contexts: which are idle and which are held, and the cache
    of compiled scripts. */
module V8Pool {
  import opened Values

  const MAX_EXECUTIONS: nat := 1000
  const DEFAULT_SIZE: nat := 4

  /** A context on its isolate; `generation` counts how often it was recreated. */
  class EventContext {
    const isolate: nat
    var generation: nat
    var inUse: bool
    var lastUsed: int
    var execCount: nat

    constructor (isolate: nat, now: int)
      ensures this.isolate == isolate && generation == 0 && !inUse && lastUsed == now && execCount == 0
    {
      this.isolate := isolate;
      generation, inUse, lastUsed, execCount := 0, false, now, 0;
    }
  }

  datatype Script = Script(isolate: nat, path: string, code: string)

  /** V8's compiler, and the wrapping of a source in a function. */
  datatype Compiler = Compiler(compile: (nat, string, string) -> Option<Script>, wrap: string -> string) {
    function Compiled(isolate: nat, source: string, path: string): Option<Script> {
      compile(isolate, wrap(source), path)
    }
  }

  type Cache = map<string, map<nat, Script>>

  function WrappedKey(path: string): string {
    path + "_wrapped"
  }

  lemma {:induction false} KeysDiffer(p: string, q: string)
    ensures WrappedKey(p) == WrappedKey(q) <==> p == q
  {
    if WrappedKey(p) == WrappedKey(q) {
      assert p == WrappedKey(p)[..|WrappedKey(p)| - 8] == q;
    }
  }

  function Cached(cache: Cache, path: string, isolate: nat): Option<Script> {
    var key := WrappedKey(path);
    if key in cache && isolate in cache[key] then Some(cache[key][isolate]) else None
  }

  /** Every cached script is what compiling its source now would give. */
  ghost predicate IsFresh(compiler: Compiler, scripts: map<string, string>, cache: Cache) {
    forall path, isolate ::
      Cached(cache, path, isolate).Some? ==>
        path in scripts && compiler.Compiled(isolate, scripts[path], path) == Cached(cache, path, isolate)
  }

  function Stored(cache: Cache, path: string, isolate: nat, script: Script): Cache {
    var key := WrappedKey(path);
    cache[key := (if key in cache then cache[key] else map[])[isolate := script]]
  }

  lemma {:induction false} StoredAt(cache: Cache, path: string, isolate: nat, script: Script, p: string, i: nat)
    ensures Cached(Stored(cache, path, isolate, script), p, i) ==
            if p == path && i == isolate then Some(script) else Cached(cache, p, i)
  {
    KeysDiffer(p, path);
  }

  lemma {:induction false} StoreKeepsFresh(compiler: Compiler, scripts: map<string, string>, cache: Cache,
                                           path: string, isolate: nat, script: Script)
    requires IsFresh(compiler, scripts, cache) && path in scripts
    requires compiler.Compiled(isolate, scripts[path], path) == Some(script)
    ensures IsFresh(compiler, scripts, Stored(cache, path, isolate, script))
  {
    hide Stored, Cached;
    forall p, i
      ensures Cached(Stored(cache, path, isolate, script), p, i) ==
              if p == path && i == isolate then Some(script) else Cached(cache, p, i)
    {
      StoredAt(cache, path, isolate, script, p, i);
    }
  }

  /** A new source for a path leaves the cache fresh exactly when it compiles, on
      every isolate that has the path cached, to what is cached. */
  lemma {:induction false} ReplacedSourceFresh(compiler: Compiler, scripts: map<string, string>, cache: Cache,
                                               path: string, source: string)
    requires IsFresh(compiler, scripts, cache)
    ensures IsFresh(compiler, scripts[path := source], cache)
            <==> forall i | Cached(cache, path, i).Some? :: compiler.Compiled(i, source, path) == Cached(cache, path, i)
  {
    hide Cached;
    if forall i | Cached(cache, path, i).Some? :: compiler.Compiled(i, source, path) == Cached(cache, path, i) {
      forall p, i | Cached(cache, p, i).Some?
        ensures p in scripts[path := source] &&
          compiler.Compiled(i, scripts[path := source][p], p) == Cached(cache, p, i)
      {
      }
    }
  }

  // ---- Conservation

  predicate Distinct<T(==)>(s: seq<T>) {
    forall i, j | 0 <= i < j < |s| :: s[i] != s[j]
  }

  lemma {:induction false} DistinctSize<T>(s: seq<T>)
    requires Distinct(s)
    ensures |set x | x in s| == |s|
    decreases s
  {
    if s != [] {
      var n := |s| - 1;
      DistinctSize(s[..n]);
      assert (set x | x in s) == (set x | x in s[..n]) + {s[n]} by {
        assert s == s[..n] + [s[n]];
      }
      assert s[n] !in s[..n];
    }
  }

  /** While a context is out, there is room for it: the overflow cannot happen. */
  lemma {:induction false} RoomToReturn<T>(contexts: seq<T>, available: seq<T>, c: T)
    requires Distinct(contexts) && Distinct(available) && c in contexts && c !in available
    requires forall x | x in available :: x in contexts
    ensures |available| < |contexts|
  {
    DistinctSize(contexts);
    DistinctSize(available);
    var all, idle := set x | x in contexts, set x | x in available;
    SubsetSize(idle, all - {c});
  }

  lemma {:induction false} SubsetSize<T>(a: set<T>, b: set<T>)
    requires a <= b
    ensures |a| <= |b|
    decreases a
  {
    if a != {} {
      var x :| x in a;
      SubsetSize(a - {x}, b - {x});
    }
  }

  class V8Pool {
    const poolSize: nat
    const compiler: Compiler
    const contexts: seq<EventContext>
    var available: seq<EventContext>
    var scripts: map<string, string>
    var compiled: Cache
    var isShutdown: bool

    /** The contexts callers hold. */
    ghost var held: set<EventContext>

    /** Each context is idle exactly once or held, never both; idle contexts are not worn out. */
    ghost predicate Valid()
      reads this, contexts
    {
      && |contexts| == poolSize && Distinct(contexts) && Distinct(available)
      && (forall c | c in contexts :: c in available || c in held)
      && (forall c | c in available :: c in contexts && c !in held)
      && (forall c | c in held :: c in contexts)
      && (forall c | c in contexts :: c.execCount <= MAX_EXECUTIONS && (c.inUse <==> c in held))
    }

    constructor (size: int, compiler: Compiler, now: int)
      ensures Valid() && held == {} && available == contexts && !isShutdown
      ensures poolSize == if size <= 0 then 4 else size
      ensures scripts == map[] && compiled == map[] && this.compiler == compiler
      ensures forall c | c in contexts :: fresh(c)
    {
      var n: nat := if size <= 0 then DEFAULT_SIZE else size;
      var made: seq<EventContext> := [];
      for i := 0 to n
        invariant |made| == i && Distinct(made)
        invariant forall c | c in made :: fresh(c) && !c.inUse && c.execCount == 0
      {
        var c := new EventContext(i, now);
        made := made + [c];
      }
      poolSize := n;
      this.compiler := compiler;
      contexts, available, held := made, made, {};
      scripts, compiled, isShutdown := map[], map[], false;
    }

    /** Both a context and an expired timeout may be ready; Go then picks either. */
    method AcquireContext(expired: bool, now: int) returns (c: Option<EventContext>)
      requires Valid()
      modifies this`available, this`held, available
      ensures Valid()
      ensures isShutdown ==> c.None?
      ensures !isShutdown && !expired ==> (c.None? <==> old(available) == [])
      ensures c.None? ==> available == old(available) && held == old(held)
      ensures c.Some? ==>
        old(available) != [] && c.value == old(available)[0] && available == old(available)[1..] &&
          held == old(held) + {c.value} &&
        c.value.inUse && c.value.lastUsed == now && c.value.execCount <= 1000
      ensures forall d | d in contexts && c != Some(d) ::
        d.inUse == old(d.inUse) && d.execCount == old(d.execCount) && d.generation == old(d.generation)
    {
      if isShutdown || available == [] {
        return None;
      }
      var timeoutFirst: bool := *;
      if expired && timeoutFirst {
        return None;
      }
      var first := available[0];
      available := available[1..];
      held := held + {first};
      first.inUse := true;
      first.lastUsed := now;
      c := Some(first);
    }

    /** Returning a held context conserves the pool and finds room. Returning any
        other one would queue it a second time, or overflow when all are idle. */
    method ReleaseContext(c: EventContext, now: int) returns (overflow: bool)
      requires Valid() && c in contexts
      modifies this`available, this`held, c
      ensures isShutdown ==>
        Valid() && !overflow && available == old(available) && held == old(held) && c.execCount == old(c.execCount)
      ensures !isShutdown ==>
        c.execCount == (if old(c.execCount) + 1 > 1000 then 0 else old(c.execCount) + 1) &&
        c.generation == old(c.generation) + (if old(c.execCount) + 1 > 1000 then 1 else 0)
      ensures !isShutdown && c in old(held) ==>
        Valid() && !overflow && available == old(available) + [c] && held == old(held) - {c}
      ensures !isShutdown && c !in old(held) ==>
        overflow == (|old(available)| == poolSize) &&
          (!overflow ==> available == old(available) + [c] && !Distinct(available))
    {
      if isShutdown {
        return false;
      }
      c.execCount := c.execCount + 1;
      if c.execCount > MAX_EXECUTIONS {
        c.generation := c.generation + 1;
        c.execCount := 0;
      }
      c.inUse := false;
      c.lastUsed := now;
      if c in held {
        RoomToReturn(contexts, available, c);
      } else {
        IdleFits(contexts, available);
      }
      overflow := |available| >= poolSize;
      if !overflow {
        ghost var k: nat :| c in held || (k < |available| && available[k] == c);
        available := available + [c];
        assert c !in held ==> available[k] == available[|available| - 1];
      }
      held := held - {c};
    }

    method PrecompileScript(path: string, source: string) returns (ok: bool)
      modifies this`scripts, this`compiled
      ensures ok == !isShutdown
      ensures scripts == if ok then old(scripts)[path := source] else old(scripts)
      ensures forall p, i :: Cached(compiled, p, i) == Cached(old(compiled), p, i)
      ensures IsFresh(compiler, old(scripts), old(compiled)) && (path in old(scripts) ==> old(scripts)[path] == source)
              ==> IsFresh(compiler, scripts, compiled)
    {
      if isShutdown {
        return false;
      }
      scripts := scripts[path := source];
      if path !in compiled {
        compiled := compiled[path := map[]];
      }
      ok := true;
    }

    /** The part of ExecuteScript under the lock: the compiled script it will run.
        While no path's source changes it is the one a fresh compilation gives;
        after a change, an isolate that has the path cached keeps running the old one. */
    method CompiledScript(c: EventContext, path: string) returns (script: Option<Script>)
      modifies this`compiled
      ensures path !in scripts ==> script.None?
      ensures path in scripts ==>
        script == if Cached(old(compiled), path, c.isolate).Some? then Cached(old(compiled), path, c.isolate)
                  else compiler.Compiled(c.isolate, scripts[path], path)
      ensures IsFresh(compiler, scripts, old(compiled)) ==>
        IsFresh(compiler, scripts, compiled) &&
        (path in scripts ==> script == compiler.Compiled(c.isolate, scripts[path], path))
    {
      if path !in scripts {
        return None;
      }
      script := Cached(compiled, path, c.isolate);
      if script.None? {
        script := compiler.Compiled(c.isolate, scripts[path], path);
        if script.Some? {
          if IsFresh(compiler, scripts, compiled) {
            StoreKeepsFresh(compiler, scripts, compiled, path, c.isolate, script.value);
          }
          compiled := Stored(compiled, path, c.isolate, script.value);
        }
      }
    }
  }

  lemma {:induction false} IdleFits<T>(contexts: seq<T>, available: seq<T>)
    requires Distinct(contexts) && Distinct(available) && forall x | x in available :: x in contexts
    ensures |available| <= |contexts|
  {
    DistinctSize(contexts);
    DistinctSize(available);
    SubsetSize(set x | x in available, set x | x in contexts);
  }
}

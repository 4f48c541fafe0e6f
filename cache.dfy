/**
 * The optional caching layer (lib/syro/tilt/cache.rb): a store that maps
 * argument tuples to the value first computed for them, and the two helpers
 * it wraps, `template` (keyed on the file path) and `template_path` (keyed on
 * the name, the directory and the Accept header).
 *
 * Calls are sequential here; the store's mutex is not modelled.
 */
module Cache {
  import opened Wrappers
  import opened TemplateLocator

  /** `before` is kept whole in `after`: no key removed, no value replaced. */
  ghost predicate Extends<K, V>(before: map<K, V>, after: map<K, V>) {
    forall k :: k in before ==> k in after && after[k] == before[k]
  }

  /** A store that only grows: `fetch` computes a value for a key it does not hold yet, and keeps it. */
  class MemoryStore<K(==), V> {
    var cache: map<K, V>
    /** How many times a computation has been run. */
    ghost var computations: nat

    constructor ()
      ensures cache == map[] && computations == 0
    {
      cache := map[];
      computations := 0;
    }

    /**
     * `fetch(key) { compute }`. A hit returns the stored value without
     * running `compute` and changes nothing. A miss runs `compute` once and
     * stores its value; a computation that fails (raises) stores nothing, so
     * the next fetch of that key computes again.
     */
    method Fetch<E>(key: K, compute: () -> Result<V, E>) returns (r: Result<V, E>)
      modifies this
      ensures key in old(cache) ==> r == Success(old(cache)[key])
      ensures key in old(cache) ==> cache == old(cache) && computations == old(computations)
      ensures key !in old(cache) ==> r == compute() && computations == old(computations) + 1
      ensures key !in old(cache) && r.Success? ==> cache == old(cache)[key := r.value]
      ensures r.Failure? ==> cache == old(cache)
      ensures Extends(old(cache), cache)
      ensures cache.Keys <= old(cache.Keys) + {key}
    {
      if key in cache {
        r := Success(cache[key]);
      } else {
        r := compute();
        computations := computations + 1;
        if r.Success? {
          cache := cache[key := r.value];
        }
      }
    }
  }

  /** Why Tilt could not build a template (a missing file raises `Errno::ENOENT`). */
  datatype LoadError = LoadFailed(path: string)

  /** The key of a `template_path` lookup: the name, the directory and the Accept header. */
  type PathKey = (string, Option<string>, Option<string>)

  /**
   * `Syro::Tilt::Cache` prepended to the helpers: `template` and
   * `template_path` answered from their stores. `load` is `template` itself
   * (Tilt building a template object of type `T` from a file).
   */
  class CachedHelpers<T> {
    const views: Views
    const load: string -> Result<T, LoadError>
    const templates: MemoryStore<string, T>
    const templatePaths: MemoryStore<PathKey, Option<string>>

    /** Every stored entry is what the uncached helper computes for its key. */
    ghost predicate Valid()
      reads this, templates, templatePaths
    {
      && (templates as object) != (templatePaths as object)
      && (forall path :: path in templates.cache ==> load(path) == Success(templates.cache[path]))
      && (forall key :: key in templatePaths.cache ==>
            TemplatePath(key.0, key.1, key.2, views) == Success(templatePaths.cache[key]))
    }

    constructor (views: Views, load: string -> Result<T, LoadError>)
      ensures Valid()
      ensures this.views == views && this.load == load
      ensures fresh(templates) && fresh(templatePaths)
      ensures templates.cache == map[] && templatePaths.cache == map[]
    {
      this.views := views;
      this.load := load;
      templates := new MemoryStore();
      templatePaths := new MemoryStore();
    }

    /**
     * The cached `template(path)`: exactly what the uncached helper gives;
     * only the template store changes, and only by the entry for `path`.
     */
    method Template(path: string) returns (r: Result<T, LoadError>)
      requires Valid()
      modifies templates
      ensures Valid()
      ensures r == load(path)
      ensures Extends(old(templates.cache), templates.cache)
      ensures templates.cache.Keys <= old(templates.cache.Keys) + {path}
      ensures r.Success? ==> path in templates.cache
      ensures templates.computations == old(templates.computations) + (if path in old(templates.cache) then 0 else 1)
    {
      r := templates.Fetch(path, () => load(path));
    }

    /**
     * The cached `template_path(path, from, accept)`: exactly what the
     * resolver gives; only the entry for the whole tuple may be added, so
     * lookups that differ in any of the three are independent.
     */
    method TemplatePathCached(path: string, from: Option<string>, accept: Option<string>) returns (r: Result<Option<string>, ResolveError>)
      requires Valid()
      modifies templatePaths
      ensures Valid()
      ensures r == TemplatePath(path, from, accept, views)
      ensures Extends(old(templatePaths.cache), templatePaths.cache)
      ensures templatePaths.cache.Keys <= old(templatePaths.cache.Keys) + {(path, from, accept)}
      ensures r.Success? ==> (path, from, accept) in templatePaths.cache
      ensures templatePaths.computations
           == old(templatePaths.computations) + (if (path, from, accept) in old(templatePaths.cache) then 0 else 1)
    {
      var views := this.views;
      r := templatePaths.Fetch((path, from, accept), () => TemplatePath(path, from, accept, views));
    }

    /**
     * A resolved lookup is stored: fetching the same tuple again, whatever
     * block is given, returns the first answer without computing.
     */
    method LookupThenFetch<E>(path: string, from: Option<string>, accept: Option<string>, again: () -> Result<Option<string>, E>)
      returns (initial: Result<Option<string>, ResolveError>, stored: Result<Option<string>, E>)
      requires Valid()
      modifies templatePaths
      ensures initial == TemplatePath(path, from, accept, views)
      ensures initial.Success? ==> Valid() && stored == Success(initial.value)
      ensures initial.Success? ==> templatePaths.computations <= old(templatePaths.computations) + 1
    {
      initial := TemplatePathCached(path, from, accept);
      ghost var between := templatePaths.cache;
      ghost var counted := templatePaths.computations;
      stored := templatePaths.Fetch((path, from, accept), again);
      if initial.Success? {
        assert (path, from, accept) in between;
        assert templatePaths.cache == between && templatePaths.computations == counted;
      }
    }
  }
}

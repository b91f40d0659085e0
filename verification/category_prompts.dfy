/**
 * The news categories and their summary prompts
 * (lib/prompts/category-prompts.ts): a free-form category name is
 * normalised to one of eight categories, and each category has a default
 * prompt that a stored custom prompt may replace. The prompt texts are
 * opaque: they are given as a function of the category.
 */
module CategoryPrompts {
  import opened Wrappers
  import opened Strings
  import opened Documents

  datatype Category = General | Technology | Business | Sports | Politics | Entertainment | Health | Science

  /** The key of a category. */
  function Name(c: Category): string {
    match c
    case General => "general"
    case Technology => "technology"
    case Business => "business"
    case Sports => "sports"
    case Politics => "politics"
    case Entertainment => "entertainment"
    case Health => "health"
    case Science => "science"
  }

  /** `CATEGORIES`, in declaration order. */
  const Categories: seq<Category> := [General, Technology, Business, Sports, Politics, Entertainment, Health, Science]

  /** `CATEGORIES.includes(s)`: the category whose key is `s`. */
  function FromName(s: string): (r: Option<Category>)
    ensures r.Some? ==> Name(r.value) == s
  {
    if s == "general" then Some(General)
    else if s == "technology" then Some(Technology)
    else if s == "business" then Some(Business)
    else if s == "sports" then Some(Sports)
    else if s == "politics" then Some(Politics)
    else if s == "entertainment" then Some(Entertainment)
    else if s == "health" then Some(Health)
    else if s == "science" then Some(Science)
    else None
  }

  /** The `categoryMap` of common variations. */
  function Alias(s: string): Option<Category> {
    if s == "tech" then Some(Technology)
    else if s == "biz" then Some(Business)
    else if s == "sport" then Some(Sports)
    else if s == "politic" then Some(Politics)
    else if s == "entertainment" then Some(Entertainment)
    else if s == "medical" || s == "medicine" then Some(Health)
    else if s == "sci" then Some(Science)
    else None
  }

  /** `category.toLowerCase().trim()`. */
  function Normalized(s: string): string { Trim(Lower(s)) }

  /**
   * The keys `categoryMap` answers for without holding them: it is a plain
   * object, so a lookup also finds the members of `Object.prototype`. After
   * lower-casing only `constructor` and `__proto__` can be asked for; the
   * other inherited names (`toString`, `valueOf`, ...) hold capitals.
   */
  predicate IsInheritedKey(n: string) {
    n == "constructor" || n == "__proto__"
  }

  /**
   * The category a normalised text selects: its own key, an alias, or
   * `general`. `None` is the inherited member (the `Object` function or
   * `Object.prototype`) that the map lookup returns for an inherited key,
   * which is not a category.
   */
  function Classify(n: string): (r: Option<Category>)
    ensures FromName(n).Some? ==> r == FromName(n)
    ensures FromName(n).None? && Alias(n).Some? ==> r == Alias(n)
    ensures FromName(n).None? && Alias(n).None? && IsInheritedKey(n) ==> r.None?
    ensures FromName(n).None? && Alias(n).None? && !IsInheritedKey(n) ==> r == Some(General)
  {
    match FromName(n)
    case Some(c) => Some(c)
    case None =>
      match Alias(n)
      case Some(c) => Some(c)
      case None => if IsInheritedKey(n) then None else Some(General)
  }

  /** A text selects no category exactly when it is an inherited key. */
  lemma NoCategoryExactlyInherited(n: string)
    ensures Classify(n).None? <==> IsInheritedKey(n)
  {
    assert IsInheritedKey(n) ==> FromName(n).None? && Alias(n).None? by {
      if n == "constructor" {
        assert n[0] == 'c' && "general"[0] == 'g';
      }
    }
  }

  /**
   * `normalizeCategory`; `category` is a string, `null` or `undefined`.
   * `None` is the non-category an inherited key gives.
   */
  function NormalizeCategory(category: Field): (r: Option<Category>)
    ensures !Truthy(category) ==> r == Some(General)
    ensures Truthy(category) ==> r == Classify(Normalized(category.text))
  {
    if !Truthy(category) then Some(General) else Classify(Normalized(category.text))
  }

  /** Every key is in lower case and has no surrounding whitespace, so it normalises to itself. */
  lemma NameIsNormal(c: Category)
    ensures Normalized(Name(c)) == Name(c)
  {
    match c
    case General => WordIsNormal("general");
    case Technology => WordIsNormal("technology");
    case Business => WordIsNormal("business");
    case Sports => WordIsNormal("sports");
    case Politics => WordIsNormal("politics");
    case Entertainment => WordIsNormal("entertainment");
    case Health => WordIsNormal("health");
    case Science => WordIsNormal("science");
  }

  /** A text with nothing to trim is its own trim. */
  lemma TrimOfClean(s: string)
    requires s != [] && !IsSpace(s[0]) && !IsSpace(s[|s| - 1])
    ensures Trim(s) == s
  {
    TrimSlice(s);
  }

  /** Every category is listed. */
  lemma AllListed(c: Category)
    ensures c in Categories
  {
  }

  /** Normalising the key of a normalised category gives the same category. */
  lemma NormalizeIdempotent(category: Field)
    ensures NormalizeCategory(category).Some? ==>
      NormalizeCategory(Str(Name(NormalizeCategory(category).value))) == NormalizeCategory(category)
  {
    if NormalizeCategory(category).Some? {
      var c := NormalizeCategory(category).value;
      KeySelectsItself(c);
    }
  }

  /** The key of a category, as input, selects that category. */
  lemma KeySelectsItself(c: Category)
    ensures NormalizeCategory(Str(Name(c))) == Some(c)
  {
    NameIsNormal(c);
    assert FromName(Name(c)) == Some(c);
    assert Classify(Name(c)) == Some(c);
  }

  /** Normalising a normalised text changes nothing. */
  lemma NormalizedIsFixed(s: string)
    ensures Normalized(Normalized(s)) == Normalized(s)
  {
    var l := Lower(s);
    var t := Trim(l);
    TrimSlice(l);
    forall k | 0 <= k < |t|
      ensures !('A' <= t[k] <= 'Z')
    {
      assert t[k] == l[Leading(l) + k];
    }
    LowerOfNoUpper(t);
  }

  /** The letter case and the surrounding whitespace of the input do not matter. */
  lemma IgnoresCaseAndSpace(s: string)
    requires Normalized(s) != []
    ensures NormalizeCategory(Str(s)) == NormalizeCategory(Str(Normalized(s)))
  {
    NormalizedIsFixed(s);
  }

  /** The aliases, each distinct from every category key. */
  lemma Aliases()
    ensures Classify("tech") == Some(Technology) && Classify("biz") == Some(Business)
    ensures Classify("sport") == Some(Sports) && Classify("politic") == Some(Politics)
    ensures Classify("medical") == Some(Health) && Classify("medicine") == Some(Health)
    ensures Classify("sci") == Some(Science)
  {
  }

  /** A lower-case word is classified as it is given, so the aliases above apply to the input `tech`, `biz` and so on. */
  lemma WordAsGiven(s: string)
    requires s != [] && forall k :: 0 <= k < |s| ==> 'a' <= s[k] <= 'z'
    ensures NormalizeCategory(Str(s)) == Classify(s)
  {
    WordIsNormal(s);
  }

  /** Any other text that is not an inherited key selects `general`. */
  lemma OthersAreGeneral(s: string)
    requires FromName(Normalized(s)).None? && Alias(Normalized(s)).None?
    ensures NormalizeCategory(Str(s)) == if IsInheritedKey(Normalized(s)) then None else Some(General)
  {
  }

  /**
   * `constructor` is an inherited key: it selects no category, and the
   * default prompt of what it selects cannot be read.
   */
  lemma InheritedInputs(s: string, description: Category -> string, systemPrompt: Category -> string)
    requires s == "constructor"
    ensures NormalizeCategory(Str(s)).None?
    ensures CategoryPromptSync(s, description, systemPrompt).Failed?
  {
    LowerOfNoUpper(s);
    InheritedKeyInput(s, s);
  }

  /** An input that lower-cases to an inherited key with nothing to trim selects no category. */
  lemma InheritedKeyInput(s: string, n: string)
    requires Lower(s) == n && IsInheritedKey(n)
    ensures NormalizeCategory(Str(s)).None?
  {
    TrimOfClean(n);
    NoCategoryExactlyInherited(n);
  }

  /** A lower-case word normalises to itself. */
  lemma WordIsNormal(s: string)
    requires s != [] && forall k :: 0 <= k < |s| ==> 'a' <= s[k] <= 'z'
    ensures Normalized(s) == s
  {
    assert Lower(s) == s;
    TrimOfClean(s);
  }

  /** One entry of `DEFAULT_CATEGORY_PROMPTS`. */
  datatype CategoryPrompt = CategoryPrompt(category: Category, labelText: string, description: string, systemPrompt: string)

  /** The Korean label of a category. */
  function Label(c: Category): string {
    match c
    case General => "일반"
    case Technology => "기술"
    case Business => "비즈니스"
    case Sports => "스포츠"
    case Politics => "정치"
    case Entertainment => "엔터테인먼트"
    case Health => "건강"
    case Science => "과학"
  }

  /** `DEFAULT_CATEGORY_PROMPTS`, with the description and prompt texts given. */
  function DefaultPrompts(description: Category -> string, systemPrompt: Category -> string): (m: map<Category, CategoryPrompt>)
    ensures forall c: Category :: c in m && m[c].category == c && m[c].systemPrompt == systemPrompt(c)
  {
    var m := map c: Category | c in Categories :: CategoryPrompt(c, Label(c), description(c), systemPrompt(c));
    assert forall c: Category :: c in m by {
      forall c: Category
        ensures c in m
      {
        AllListed(c);
      }
    }
    m
  }

  /**
   * `getCategoryPromptSync`: the default prompt of the normalised category.
   * For an inherited key there is no default entry, and reading its
   * `systemPrompt` throws a `TypeError`.
   */
  function CategoryPromptSync(category: string, description: Category -> string, systemPrompt: Category -> string): (r: Result<string>)
    ensures NormalizeCategory(Str(category)).Some? ==> r == Ok(systemPrompt(NormalizeCategory(Str(category)).value))
    ensures NormalizeCategory(Str(category)).None? <==> r.Failed?
  {
    match NormalizeCategory(Str(category))
    case Some(c) => Ok(DefaultPrompts(description, systemPrompt)[c].systemPrompt)
    case None => Failed("TypeError: Cannot read properties of undefined (reading 'systemPrompt')")
  }

  /**
   * `getCategoryPrompt`: on the server the default; in the browser the
   * stored `system_prompt` when the request succeeds and it is non-empty,
   * the default otherwise. `stored` is the outcome of the request.
   */
  function CategoryPromptFor(category: string, onServer: bool, stored: Result<Field>, systemPrompt: Category -> string): (r: Result<string>)
    ensures (onServer || stored.Failed? || !Truthy(stored.value)) && NormalizeCategory(Str(category)).Some? ==>
      r == Ok(systemPrompt(NormalizeCategory(Str(category)).value))
    ensures (onServer || stored.Failed? || !Truthy(stored.value)) && NormalizeCategory(Str(category)).None? ==> r.Failed?
    ensures !onServer && stored.Ok? && Truthy(stored.value) ==> r == Ok(stored.value.text)
  {
    var fallback := match NormalizeCategory(Str(category))
      case Some(c) => Ok(systemPrompt(c))
      case None => Failed("TypeError: Cannot read properties of undefined (reading 'systemPrompt')");
    if onServer then fallback
    else match stored
      case Failed(_) => fallback
      case Ok(f) => if Truthy(f) then Ok(f.text) else fallback
  }

  /** A stored prompt: its category key and its text. */
  datatype StoredPrompt = StoredPrompt(category: string, systemPrompt: string)

  /** `prompts.find(p => p.category === cat)`. */
  function Find(prompts: seq<StoredPrompt>, key: string): (r: Option<StoredPrompt>)
    ensures r.Some? ==> r.value in prompts && r.value.category == key
    ensures r.Some? ==> exists i :: 0 <= i < |prompts| && prompts[i] == r.value && IsFirst(prompts, key, i)
    ensures r.None? ==> forall p :: p in prompts ==> p.category != key
  {
    if prompts == [] then None
    else if prompts[0].category == key then Some(prompts[0])
    else
      assert forall p :: p in prompts <==> p == prompts[0] || p in prompts[1..];
      var r := Find(prompts[1..], key);
      assert r.Some? ==> exists i :: 0 <= i < |prompts| && prompts[i] == r.value && IsFirst(prompts, key, i) by {
        if r.Some? {
          var i :| 0 <= i < |prompts[1..]| && prompts[1..][i] == r.value && IsFirst(prompts[1..], key, i);
          assert prompts[i + 1] == r.value && IsFirst(prompts, key, i + 1);
        }
      }
      r
  }

  /** `i` is the position of the first stored prompt with that category. */
  predicate IsFirst(prompts: seq<StoredPrompt>, key: string, i: int) {
    0 <= i < |prompts| && prompts[i].category == key && forall j :: 0 <= j < i ==> prompts[j].category != key
  }

  /** The prompt found is the one at the first position with the category. */
  lemma FindsFirst(prompts: seq<StoredPrompt>, key: string, i: int)
    requires IsFirst(prompts, key, i)
    ensures Find(prompts, key) == Some(prompts[i])
  {
    assert prompts[i] in prompts;
  }

  /** `found?.system_prompt || null` for one category. */
  function CustomPrompt(stored: seq<StoredPrompt>, c: Category): (r: Option<string>)
    ensures r.Some? ==> r.value != [] && StoredPrompt(Name(c), r.value) in stored
    ensures r.None? ==> Find(stored, Name(c)).None? || Find(stored, Name(c)).value.systemPrompt == []
    ensures forall i :: IsFirst(stored, Name(c), i) ==>
      r == if stored[i].systemPrompt != [] then Some(stored[i].systemPrompt) else None
  {
    match Find(stored, Name(c))
    case None => None
    case Some(p) => if p.systemPrompt != [] then Some(p.systemPrompt) else None
  }

  /**
   * `getAllCustomPrompts`: for each category, the text of the first stored
   * prompt for it when that text is non-empty, `null` otherwise; every
   * category maps to `null` on the server or when the request fails.
   */
  function AllCustomPrompts(onServer: bool, stored: Result<seq<StoredPrompt>>): (m: map<Category, Option<string>>)
    ensures forall c: Category :: c in m
    ensures onServer || stored.Failed? ==> forall c: Category :: m[c] == None
    ensures !onServer && stored.Ok? ==> forall c: Category :: m[c] == CustomPrompt(stored.value, c)
  {
    var m := map c: Category | c in Categories :: if onServer || stored.Failed? then None else CustomPrompt(stored.value, c);
    assert forall c: Category :: c in m by {
      forall c: Category
        ensures c in m
      {
        AllListed(c);
      }
    }
    m
  }
}

/**
 * The configured news feeds and the two selections made from them:
 * every enabled feed, and the enabled feeds of one category.
 */
module RssSources {
  import opened Sorting

  datatype Category = Technology | Business | Ai | Crypto | General

  datatype Source = Source(name: string, url: string, category: Category, limit: int, enabled: bool)

  /** `RSS_SOURCES`, in the order they are configured. */
  const Configured: seq<Source> := [
    Source("TechCrunch", "https://techcrunch.com/feed/", Technology, 15, true),
    Source("The Verge", "https://www.theverge.com/rss/index.xml", Technology, 15, true),
    Source("Ars Technica", "https://feeds.arstechnica.com/arstechnica/index", Technology, 10, true),
    Source("Wired", "https://www.wired.com/feed/rss", Technology, 10, true),
    Source("Engadget", "https://www.engadget.com/rss.xml", Technology, 10, true),
    Source("Hacker News", "https://hnrss.org/frontpage", Technology, 20, true),
    Source("AI News (MIT)", "http://news.mit.edu/topic/mitartificial-intelligence2-rss.xml", Ai, 10, true),
    Source("DeepMind Blog", "https://deepmind.google/blog/rss.xml", Ai, 5, true),
    Source("CoinDesk", "https://www.coindesk.com/arc/outboundfeeds/rss/", Crypto, 10, true),
    Source("Decrypt", "https://decrypt.co/feed", Crypto, 10, true),
    Source("VentureBeat", "https://venturebeat.com/feed/", Business, 10, true),
    Source("Business Insider Tech", "https://www.businessinsider.com/sai/rss", Business, 10, true)
  ]

  predicate IsEnabled(s: Source) { s.enabled }

  /** The filter of `getSourcesByCategory`. */
  function EnabledIn(c: Category): Source -> bool { (s: Source) => s.enabled && s.category == c }

  function InCategory(c: Category): Source -> bool { (s: Source) => s.category == c }

  /** `getEnabledSources`, over a given list of feeds. */
  function EnabledSources(sources: seq<Source>): (r: seq<Source>)
    ensures forall s :: s in r <==> s in sources && s.enabled
  {
    Filter(sources, IsEnabled)
  }

  /** `getSourcesByCategory`, over a given list of feeds. */
  function SourcesByCategory(sources: seq<Source>, c: Category): (r: seq<Source>)
    ensures forall s :: s in r <==> s in sources && s.enabled && s.category == c
  {
    Filter(sources, EnabledIn(c))
  }

  /** `a` is `b` with some elements left out, the rest in their order. */
  predicate Subsequence<T(==)>(a: seq<T>, b: seq<T>)
    decreases |b|
  {
    if a == [] then true
    else if b == [] then false
    else if a[0] == b[0] then Subsequence(a[1..], b[1..])
    else Subsequence(a, b[1..])
  }

  lemma {:induction false} FilterIsSubsequence<T>(s: seq<T>, p: T -> bool)
    ensures Subsequence(Filter(s, p), s)
  {
    if s != [] {
      FilterIsSubsequence(s[1..], p);
      if p(s[0]) {
        assert Filter(s, p) == [s[0]] + Filter(s[1..], p);
        assert ([s[0]] + Filter(s[1..], p))[1..] == Filter(s[1..], p);
      } else {
        assert Filter(s, p) == Filter(s[1..], p);
        if Filter(s, p) != [] {
          SubsequenceSkip(Filter(s, p), s);
        }
      }
    }
  }

  /** Leaving out a first element that the subsequence does not start with. */
  lemma SubsequenceSkip<T>(a: seq<T>, b: seq<T>)
    requires b != [] && Subsequence(a, b[1..])
    ensures Subsequence(a, b)
    decreases |a| + |b|
  {
    if a != [] && a[0] == b[0] {
      SubsequenceTail(a, b[1..]);
    }
  }

  /** A subsequence stays one when its first element is dropped. */
  lemma SubsequenceTail<T>(a: seq<T>, b: seq<T>)
    requires a != [] && Subsequence(a, b)
    ensures Subsequence(a[1..], b)
    decreases |a| + |b|
  {
    if a[0] == b[0] {
      SubsequenceSkip(a[1..], b);
    } else {
      SubsequenceTail(a, b[1..]);
      SubsequenceSkip(a[1..], b);
    }
  }

  /** Filtering by a conjunction is filtering twice. */
  lemma {:induction false} FilterTwice<T>(s: seq<T>, p: T -> bool, q: T -> bool, both: T -> bool)
    requires forall x :: both(x) == (p(x) && q(x))
    ensures Filter(s, both) == Filter(Filter(s, p), q)
  {
    if s != [] {
      FilterTwice(s[1..], p, q, both);
      var t := [s[0]] + Filter(s[1..], p);
      if p(s[0]) {
        assert Filter(s, p) == t;
        assert t[0] == s[0] && t[1..] == Filter(s[1..], p);
        assert Filter(t, q) == (if q(s[0]) then [s[0]] else []) + Filter(Filter(s[1..], p), q);
      } else {
        assert Filter(s, p) == Filter(s[1..], p);
      }
    }
  }

  /** The feeds of a category are the enabled feeds filtered once more, so they come in the same order. */
  lemma CategoryOfEnabled(sources: seq<Source>, c: Category)
    ensures SourcesByCategory(sources, c) == Filter(EnabledSources(sources), InCategory(c))
  {
    FilterTwice(sources, IsEnabled, InCategory(c), EnabledIn(c));
  }

  /** Both selections keep the configured order, and a category's feeds are among the enabled ones in that order. */
  lemma SelectionsKeepOrder(sources: seq<Source>, c: Category)
    ensures Subsequence(EnabledSources(sources), sources)
    ensures Subsequence(SourcesByCategory(sources, c), sources)
    ensures Subsequence(SourcesByCategory(sources, c), EnabledSources(sources))
  {
    FilterIsSubsequence(sources, IsEnabled);
    FilterIsSubsequence(sources, EnabledIn(c));
    CategoryOfEnabled(sources, c);
    FilterIsSubsequence(EnabledSources(sources), InCategory(c));
  }

  /** A feed that is read, with a positive number of items to take. */
  predicate Usable(s: Source) { s.enabled && s.limit > 0 }

  lemma ConfiguredUsable()
    ensures forall k :: 0 <= k < |Configured| ==> Usable(Configured[k])
  {
    forall k | 0 <= k < |Configured|
      ensures Usable(Configured[k])
    {
      assert Configured[k].limit in {5, 10, 15, 20};
    }
  }

  /** Every configured feed is enabled, so nothing is filtered away. */
  lemma ConfiguredAllEnabled()
    ensures EnabledSources(Configured) == Configured
  {
    ConfiguredUsable();
    FilterAll(Configured, IsEnabled);
  }
}

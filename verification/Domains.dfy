/** Domain names ordered by dotted suffix, and the CN@Domain names of accounts. */
module Domains {
  import opened Models
  import opened Ledgers

  predicate HasSuffix(s: string, suffix: string) {
    |suffix| <= |s| && s[|s| - |suffix|..] == suffix
  }

  predicate IsSubDomain(domain: string, subdomain: string) {
    HasSuffix(subdomain, "." + domain)
  }

  // What lies below a domain ends in it, after a dot.
  lemma SubDomainIsDotted(domain: string, subdomain: string)
    ensures IsSubDomain(domain, subdomain) <==> exists front :: subdomain == front + "." + domain
    ensures !IsSubDomain("org", "aorg") && IsSubDomain("org", "a.org")
  {
    var k := |subdomain| - |domain| - 1;
    if IsSubDomain(domain, subdomain) {
      assert subdomain == subdomain[..k] + "." + domain;
    }
    forall front | subdomain == front + "." + domain ensures IsSubDomain(domain, subdomain) {
      assert front + "." + domain == front + ("." + domain);
    }
    assert "aorg"[0..][0] == 'a' && ("." + "org")[0] == '.';
    assert "a.org"[1..] == "." + "org";
  }

  // The domain itself or one of its ancestors.
  predicate Governs(domain: string, other: string) {
    domain == other || IsSubDomain(domain, other)
  }

  // Of two suffixes of a string the shorter is a suffix of the longer.
  lemma SuffixesNest(s: string, a: string, b: string)
    requires HasSuffix(s, a) && HasSuffix(s, b) && |a| <= |b|
    ensures HasSuffix(b, a)
  {
    assert b[|b| - |a|..] == s[|s| - |b|..][|b| - |a|..] == s[|s| - |a|..];
  }

  lemma SuffixTransitive(a: string, b: string, c: string)
    requires HasSuffix(b, a) && HasSuffix(c, b)
    ensures HasSuffix(c, a)
  {
    assert c[|c| - |a|..] == c[|c| - |b|..][|b| - |a|..];
  }

  lemma ParentIsSuffix(domain: string, subdomain: string)
    requires IsSubDomain(domain, subdomain)
    ensures |domain| < |subdomain| && HasSuffix(subdomain, domain)
  {
    assert ("." + domain)[1..] == domain;
    assert subdomain[|subdomain| - |domain|..] == subdomain[|subdomain| - |domain| - 1..][1..];
  }

  // A strict partial order: irreflexive (so asymmetric) and transitive.
  lemma SubDomainStrictOrder(a: string, b: string, c: string)
    ensures !IsSubDomain(a, a)
    ensures IsSubDomain(a, b) ==> !IsSubDomain(b, a)
    ensures IsSubDomain(a, b) && IsSubDomain(b, c) ==> IsSubDomain(a, c)
  {
    if IsSubDomain(a, b) && IsSubDomain(b, c) {
      ParentIsSuffix(b, c);
      SuffixTransitive("." + a, b, c);
    }
  }

  lemma AncestorsNested(a: string, b: string, d: string)
    requires IsSubDomain(a, d) && IsSubDomain(b, d) && |a| <= |b|
    ensures a == b || IsSubDomain(a, b)
  {
    ParentIsSuffix(b, d);
    if |a| == |b| {
      ParentIsSuffix(a, d);
      SuffixesNest(d, a, b);
      assert b[0..] == b;
    } else {
      SuffixesNest(d, "." + a, b);
    }
  }

  // The ancestors of a domain form a chain, so the order is a forest.
  lemma AncestorsFormChain(a: string, b: string, d: string)
    requires IsSubDomain(a, d) && IsSubDomain(b, d)
    ensures a == b || IsSubDomain(a, b) || IsSubDomain(b, a)
  {
    if |a| <= |b| {
      AncestorsNested(a, b, d);
    } else {
      AncestorsNested(b, a, d);
    }
  }

  lemma GovernsTransitive(a: string, b: string, c: string)
    requires Governs(a, b) && Governs(b, c)
    ensures Governs(a, c)
  {
    SubDomainStrictOrder(a, b, c);
  }

  // A name without a second '@' splits in only one way.
  lemma NamesInjective(cn: string, domain: string, cn': string, domain': string)
    requires '@' !in cn && '@' !in domain && AccountName(cn, domain) == AccountName(cn', domain')
    ensures cn == cn' && domain == domain'
  {
    var name := AccountName(cn, domain);
    assert name[|cn'|] == '@' && name[|cn|] == '@';
    assert forall i :: 0 <= i < |cn| ==> name[i] == cn[i];
    assert forall i :: |cn| < i < |name| ==> name[i] == domain[i - |cn| - 1];
    assert cn == name[..|cn|] && cn' == name[..|cn'|];
    assert domain == name[|cn| + 1..] && domain' == name[|cn'| + 1..];
  }
}

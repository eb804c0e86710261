/** What the proxy reads from a request's host: pkg/proxy/helpers.go. */
module Hosts {
  import opened Options
  import opened Text
  import opened CacheKeys

  /** A host name or a port, which hold no ':' and no brackets. */
  predicate Plain(s: string) {
    ':' !in s && '[' !in s && ']' !in s
  }

  lemma LastIsHere(s: string, c: char, i: nat)
    requires i < |s| && s[i] == c && c !in s[i + 1..]
    ensures LastIndex(s, c) == i
  {
    hide LastIndex;
    forall k | i < k < |s| ensures s[k] != c { assert s[i + 1..][k - i - 1] == s[k]; }
  }

  lemma FirstIsHere(s: string, c: char, i: nat)
    requires i < |s| && s[i] == c && c !in s[..i]
    ensures FirstIndex(s, c) == i
  {
    hide FirstIndex;
    var k := FirstIndex(s, c);
    forall j | 0 <= j < i ensures s[j] != c { assert s[..i][j] == s[j]; }
    forall j | 0 <= j < k ensures s[j] != c { assert s[..k][j] == s[j]; }
  }

  lemma Around(a: string, c: char, b: string)
    ensures var s := a + [c] + b; s[|a|] == c && s[..|a|] == a && s[|a| + 1..] == b
  {
  }

  lemma LastColon(a: string, b: string)
    requires ':' !in b
    ensures LastIndex(a + ":" + b, ':') == |a| && (a + ":" + b)[..|a|] == a
  {
    Around(a, ':', b);
    LastIsHere(a + ":" + b, ':', |a|);
  }

  lemma {:induction false} TrimsToMiddle(s: string)
    requires s != [] ==> s[0] !in "[]" && s[|s| - 1] !in "[]"
    ensures TrimBrackets(s) == s
  {
  }

  lemma TrimsLeft(s: string)
    ensures TrimBrackets("[" + s) == TrimBrackets(s)
  {
    assert ("[" + s)[1..] == s;
  }

  lemma TrimsRight(s: string)
    requires s != [] ==> s[0] !in "[]" && s[|s| - 1] !in "[]"
    ensures TrimBrackets(s + "]") == s
  {
    var t := s + "]";
    assert t[..|t| - 1] == s;
    TrimsToMiddle(s);
    if s == [] { assert t[1..] == []; }
  }

  /** A host without a ':' is kept as it is, brackets or not. */
  lemma NoPortKept(h: string)
    requires ':' !in h
    ensures StripPort(h) == h
  {
  }

  /** The port goes. */
  lemma PortStripped(h: string, port: string)
    requires Plain(h) && Plain(port)
    ensures StripPort(h + ":" + port) == h
  {
    LastColon(h, port);
    var s := h + ":" + port;
    assert s[0] != '[' by { assert s[0] == if h == [] then ':' else h[0]; }
    assert forall c :: c in s ==> c in h || c == ':' || c in port;
  }

  /** The brackets of an IPv6 literal go with the port. */
  lemma BracketsStripped(a: string, port: string)
    requires '[' !in a && ']' !in a && ':' !in port
    ensures StripPort("[" + a + "]:" + port) == a
  {
    var front := "[" + a + "]";
    assert "[" + a + "]:" + port == front + ":" + port;
    LastColon(front, port);
    assert front == "[" + (a + "]");
    TrimsLeft(a + "]");
    TrimsRight(a);
  }

  /** Without a port the last group of an IPv6 literal is taken for one: it is lost, so hosts that differ
      only there are told apart neither by the key nor by the chain. */
  lemma BareLiteralLosesGroup(a: string, b: string)
    requires '[' !in a && ']' !in a && ':' !in b
    ensures StripPort("[" + a + ":" + b + "]") == a
  {
    var front := "[" + a;
    assert "[" + a + ":" + b + "]" == front + ":" + (b + "]");
    LastColon(front, b + "]");
    TrimsLeft(a);
    TrimsToMiddle(a);
  }

  /** A host with two colons and no bracket in front is kept whole. */
  lemma TwoColonsKept(a: string, b: string, c: string)
    requires Plain(a) && Plain(c)
    ensures StripPort(a + ":" + b + ":" + c) == a + ":" + b + ":" + c
  {
    var front := a + ":" + b;
    LastColon(front, c);
    assert front[|a|] == ':' && ':' in front;
    var s := front + ":" + c;
    assert s[0] != '[' by { assert s[0] == if a == [] then ':' else a[0]; }
  }

  /** Requests that differ only in a port share key and chain. */
  lemma PortChangesNothing(r: Request, h: string, port: string, suffix: string)
    requires Plain(h) && Plain(port)
    ensures var (with, without) := (r.(host := h + ":" + port), r.(host := h));
            KeyOf(with, suffix) == KeyOf(without, suffix) && ChainOf(with) == ChainOf(without)
  {
    PortStripped(h, port);
    NoPortKept(h);
    hide StripPort;
    assert StripPort(h + ":" + port) == StripPort(h);
    SameComponentsSameKey(r.(host := h + ":" + port), r.(host := h), suffix);
  }

  // ----- Chains -----

  lemma FirstDot(a: string, b: string)
    requires '.' !in a
    ensures FirstIndex(a + "." + b, '.') == |a| && (a + "." + b)[..|a|] == a && (a + "." + b)[|a| + 1..] == b
    ensures Split(a + "." + b, '.') == [a] + Split(b, '.')
  {
    Around(a, '.', b);
    FirstIsHere(a + "." + b, '.', |a|);
    hide FirstIndex;
  }

  /** The second label is the chain, whatever follows it. */
  lemma SecondLabel(s: string, c: string, rest: string)
    requires '.' !in s && '.' !in c && (rest == "" || rest[0] == '.')
    ensures var parts := Split(s + "." + c + rest, '.'); |parts| >= 2 && parts[1] == c
  {
    hide Split, FirstIndex;
    assert s + "." + c + rest == s + "." + (c + rest);
    FirstDot(s, c + rest);
    FirstLabel(c, rest);
  }

  lemma FirstLabel(c: string, rest: string)
    requires '.' !in c && (rest == "" || rest[0] == '.')
    ensures Split(c + rest, '.')[0] == c
  {
    if rest == "" {
      assert c + rest == c;
    } else {
      assert c + rest == c + "." + rest[1..];
      FirstDot(c, rest[1..]);
    }
  }

  /** `host` is the text `s.c` or `s.c.more`, and perhaps a dot and a port at the end. */
  ghost predicate Names(host: string, s: string, c: string) {
    exists more, dot, port ::
      Plain(more) && Plain(port) && (more == "" || more[0] == '.') && dot in ["", "."] &&
      (host == s + "." + c + more + dot || host == s + "." + c + more + dot + ":" + port)
  }

  /** A host of two labels or more, with or without a trailing dot and a port, is on the chain of its
      second label, whatever the URL and the header say. */
  lemma ChainIsSecondLabel(r: Request, s: string, c: string)
    requires Plain(s) && '.' !in s && Plain(c) && '.' !in c && c != "" && Names(r.host, s, c)
    ensures ChainOf(r) == Some(c)
  {
    var more, dot, port :|
      Plain(more) && Plain(port) && (more == "" || more[0] == '.') && dot in ["", "."] &&
      (r.host == s + "." + c + more + dot || r.host == s + "." + c + more + dot + ":" + port);
    var h := s + "." + c + more + dot;
    assert Plain(h) by { assert forall x :: x in h ==> x in s || x == '.' || x in c || x in more || x in dot; }
    PortStripped(h, port);
    NoPortKept(h);
    assert StripPort(r.host) == h && h != "";
    var rest := DotTrimmed(s, c, more, dot);
    SecondLabel(s, c, rest);
    hide StripPort, Split;
  }

  /** Trimming the dot leaves the first two labels alone. */
  lemma DotTrimmed(s: string, c: string, more: string, dot: string) returns (rest: string)
    requires c != "" && '.' !in c && (more == "" || more[0] == '.') && dot in ["", "."]
    ensures TrimDot(s + "." + c + more + dot) == s + "." + c + rest && (rest == "" || rest[0] == '.')
  {
    var h := s + "." + c + more + dot;
    var tail := more + dot;
    assert h == s + "." + c + tail;
    if tail != "" && tail[|tail| - 1] == '.' {
      rest := tail[..|tail| - 1];
      assert h[|h| - 1] == '.' && h[..|h| - 1] == s + "." + c + rest;
    } else {
      rest := tail;
      if tail == "" {
        assert h[|h| - 1] == c[|c| - 1] && c[|c| - 1] in c;
      } else {
        assert h[|h| - 1] == tail[|tail| - 1];
      }
    }
  }

  /** A host of one label leaves the chain to the header, and without one there is none. */
  lemma OneLabelUsesHeader(r: Request, h: string, port: string)
    requires Plain(h) && '.' !in h && h != "" && Plain(port) && (r.host == h || r.host == h + ":" + port)
    ensures ChainOf(r) == if r.chainHeader == "" then None else Some(r.chainHeader)
  {
    PortStripped(h, port);
    NoPortKept(h);
    hide StripPort;
    assert TrimDot(h) == h by { assert h[|h| - 1] in h; }
  }

  /** Without a host the URL's is read in its place. */
  lemma UrlHostIsRead(r: Request)
    requires r.host == ""
    ensures ChainOf(r) == ChainOf(r.(host := r.urlHost))
  {
  }
}

/** The footer region's children (src/focusly.js lines 107-131).

    The footer holds markup set through `innerHTML` and the button nodes of
    `_footerButtons`. A button node is identified by its position in that
    list, so two buttons with the same title are still two nodes. Two DOM
    rules shape everything here: appending a node that is already a child
    MOVES it to the end, and assigning `innerHTML` replaces every child. */
module Footer {
  import opened Base

  datatype FooterChild = Markup(html: string) | Button(index: nat)

  /** The children of `c` that are not among `xs`, in their order. */
  function Without(c: seq<FooterChild>, xs: seq<FooterChild>): (r: seq<FooterChild>)
    ensures |r| <= |c|
  {
    if |c| == 0 then []
    else (if c[0] in xs then [] else [c[0]]) + Without(c[1..], xs)
  }

  /** `parent.append(x)`: `x` leaves its old place and becomes the last child. */
  function AppendNode(c: seq<FooterChild>, x: FooterChild): (r: seq<FooterChild>)
    ensures |r| > 0 && r[|r| - 1] == x
    ensures x !in r[..|r| - 1]
    ensures forall y :: y != x ==> (y in r <==> y in c)
    ensures |r| <= |c| + 1
  {
    WithoutDrops(c, [x]);
    WithoutKeeps(c, [x]);
    Without(c, [x]) + [x]
  }

  lemma {:induction false} WithoutKeeps(c: seq<FooterChild>, xs: seq<FooterChild>)
    ensures forall y :: y !in xs ==> (y in Without(c, xs) <==> y in c)
    decreases |c|
  {
    if |c| > 0 {
      WithoutKeeps(c[1..], xs);
      assert c == [c[0]] + c[1..];
    }
  }

  lemma {:induction false} WithoutDrops(c: seq<FooterChild>, xs: seq<FooterChild>)
    ensures forall i :: 0 <= i < |Without(c, xs)| ==> Without(c, xs)[i] !in xs
    decreases |c|
  {
    if |c| > 0 {
      WithoutDrops(c[1..], xs);
    }
  }

  /** `nodes.forEach(n => parent.append(n))`, one append after the other. */
  function AppendAll(c: seq<FooterChild>, nodes: seq<FooterChild>): seq<FooterChild>
    decreases |nodes|
  {
    if |nodes| == 0 then c else AppendAll(AppendNode(c, nodes[0]), nodes[1..])
  }

  /** The button nodes of a list of `n` buttons, in call order. */
  function ButtonRun(n: nat): (r: seq<FooterChild>)
    ensures |r| == n
    ensures forall i :: 0 <= i < n ==> r[i] == Button(i)
  {
    if n == 0 then [] else ButtonRun(n - 1) + [Button(n - 1)]
  }

  lemma {:induction false} WithoutConcat(a: seq<FooterChild>, b: seq<FooterChild>, xs: seq<FooterChild>)
    ensures Without(a + b, xs) == Without(a, xs) + Without(b, xs)
    decreases |a|
  {
    if |a| == 0 {
      assert a + b == b;
    } else {
      assert (a + b)[0] == a[0];
      assert (a + b)[1..] == a[1..] + b;
      WithoutConcat(a[1..], b, xs);
    }
  }

  lemma {:induction false} WithoutTwice(c: seq<FooterChild>, xs: seq<FooterChild>, ys: seq<FooterChild>)
    ensures Without(Without(c, xs), ys) == Without(c, xs + ys)
    decreases |c|
  {
    if |c| > 0 {
      var head := if c[0] in xs then [] else [c[0]];
      WithoutConcat(head, Without(c[1..], xs), ys);
      WithoutTwice(c[1..], xs, ys);
      if c[0] !in xs {
        assert Without(head, ys) == Without([c[0]][1..], ys) + (if c[0] in ys then [] else [c[0]]);
      }
    }
  }

  lemma {:induction false} WithoutNone(c: seq<FooterChild>, xs: seq<FooterChild>)
    requires forall x :: x in c ==> x !in xs
    ensures Without(c, xs) == c
    decreases |c|
  {
    if |c| > 0 {
      WithoutNone(c[1..], xs);
      assert [c[0]] + c[1..] == c;
    }
  }

  /** Moving `x` to the end and then filtering out `rest`, which does not
      hold `x`, is filtering out `x` and `rest` together with `x` kept last. */
  lemma MoveThenFilter(c: seq<FooterChild>, x: FooterChild, rest: seq<FooterChild>)
    requires x !in rest
    ensures Without(AppendNode(c, x), rest) + rest == Without(c, [x] + rest) + ([x] + rest)
  {
    var moved := Without(c, [x]);
    WithoutConcat(moved, [x], rest);
    WithoutNone([x], rest);
    WithoutTwice(c, [x], rest);
    calc {
      Without(AppendNode(c, x), rest) + rest;
      Without(moved + [x], rest) + rest;
      Without(moved, rest) + [x] + rest;
      Without(c, [x] + rest) + ([x] + rest);
    }
  }

  /** Appending distinct nodes one by one leaves the other children in their
      order, followed by the appended nodes in call order: the reference
      form of `_renderFooterButtons`. */
  lemma {:induction false} AppendAllClosedForm(c: seq<FooterChild>, nodes: seq<FooterChild>)
    requires Distinct(nodes)
    ensures AppendAll(c, nodes) == Without(c, nodes) + nodes
    decreases |nodes|
  {
    if |nodes| > 0 {
      var x, rest := nodes[0], nodes[1..];
      assert nodes == [x] + rest;
      DistinctTail(nodes);
      AppendAllClosedForm(AppendNode(c, x), rest);
      MoveThenFilter(c, x, rest);
    } else {
      WithoutNone(c, nodes);
    }
  }

  /** `_renderFooterContent`: a truthy footer markup replaces every child. */
  function RenderContent(c: seq<FooterChild>, footerContent: Option<string>): (r: seq<FooterChild>)
    ensures Truthy(footerContent) ==> r == [Markup(footerContent.value)]
    ensures !Truthy(footerContent) ==> r == c
  {
    if Truthy(footerContent) then [Markup(footerContent.value)] else c
  }

  /** `_renderFooterButtons` for a list of `n` buttons. */
  function RenderButtons(c: seq<FooterChild>, n: nat): (r: seq<FooterChild>)
    ensures r == Without(c, ButtonRun(n)) + ButtonRun(n)
  {
    ButtonRunDistinct(n);
    AppendAllClosedForm(c, ButtonRun(n));
    AppendAll(c, ButtonRun(n))
  }

  lemma ButtonRunDistinct(n: nat)
    ensures Distinct(ButtonRun(n))
  {
  }

  /** The last `n` children are the `n` button nodes in list order. */
  predicate EndsWithButtons(c: seq<FooterChild>, n: nat) {
    |c| >= n && c[|c| - n..] == ButtonRun(n)
  }

  /** The shapes a footer can take with `n` stored buttons: an optional
      markup node, followed by either no button or all `n` of them. */
  predicate Shaped(c: seq<FooterChild>, n: nat) {
    || c == [] || c == ButtonRun(n)
    || (|c| > 0 && c[0].Markup? && (c[1..] == [] || c[1..] == ButtonRun(n)))
  }

  lemma {:induction false} WithoutButtons(k: nat, n: nat)
    requires k <= n
    ensures Without(ButtonRun(k), ButtonRun(n)) == []
  {
    if k > 0 {
      WithoutButtons(k - 1, n);
      WithoutConcat(ButtonRun(k - 1), [Button(k - 1)], ButtonRun(n));
      assert ButtonRun(n)[k - 1] == Button(k - 1);
      assert Without([Button(k - 1)], ButtonRun(n)) == [];
    }
  }

  /** Rendering `n` buttons into a footer that showed at most the first `k`
      of them yields its markup (if any) followed by all `n` buttons. */
  lemma {:induction false} RenderButtonsShaped(c: seq<FooterChild>, k: nat, n: nat)
    requires Shaped(c, k) && k <= n
    ensures Shaped(RenderButtons(c, n), n)
    ensures |c| > 0 && c[0].Markup? ==> RenderButtons(c, n) == [c[0]] + ButtonRun(n)
    ensures (|c| == 0 || !c[0].Markup?) ==> RenderButtons(c, n) == ButtonRun(n)
  {
    WithoutButtons(k, n);
    WithoutButtons(0, n);
    if |c| > 0 && c[0].Markup? {
      assert c == [c[0]] + c[1..];
      WithoutConcat([c[0]], c[1..], ButtonRun(n));
      WithoutNone([c[0]], ButtonRun(n));
      var r := [c[0]] + ButtonRun(n);
      assert r[1..] == ButtonRun(n);
    }
  }
}

/** The Card family of primitives.

    Every member of the family hands `cn` exactly two arguments: its own
    fixed base fragment, then the caller's `className`. The family is defined
    in src/components/Elements.jsx and again, with two different bases and
    without `CardImage`, in src/components/Portfolio.tsx.
 */
module Cards {
  import opened Options
  import opened ClassFragments

  datatype Part = Card | CardHeader | CardTitle | CardDescription | CardContent | CardFooter | CardImage

  /** The base fragment of each primitive as defined in Elements.jsx. */
  function ElementsBase(p: Part): string {
    match p
    case Card => "rounded-lg border bg-card text-card-foreground shadow-sm"
    case CardHeader => "flex flex-col space-y-1.5 p-6 pb-0"
    case CardTitle => "text-2xl font-semibold leading-none tracking-tight"
    case CardDescription => "text-sm text-muted-foreground"
    case CardContent => "p-6"
    case CardFooter => "flex items-center p-6 pt-0"
    case CardImage => "max-h-screen"
  }

  /** The base fragment of each primitive as defined in Portfolio.tsx, which
      has no `CardImage`. */
  function PortfolioBase(p: Part): Option<string> {
    match p
    case Card => Some("rounded-lg border bg-card text-card-foreground shadow-sm")
    case CardHeader => Some("flex flex-col space-y-1.5 p-6")
    case CardTitle => Some("text-2xl font-semibold leading-none tracking-tight")
    case CardDescription => Some("text-sm text-muted-foreground")
    case CardContent => Some("p-6 pt-0")
    case CardFooter => Some("flex items-center p-6 pt-0")
    case CardImage => None
  }

  /** `cn(base, className)`: what reaches the composer is the base followed
      by the className when one is given. */
  function CardFragments(base: string, className: Option<string>): (r: Fragments)
    ensures Present(r) == [base] + Contribution(className)
    ensures CountSome(r) == 1 + |Contribution(className)|
  {
    var r := [Some(base), className];
    assert r[1..] == [className];
    assert r[1..][1..] == [];
    r
  }

  /** The argument list of an Elements.jsx primitive. */
  function ElementsFragments(p: Part, className: Option<string>): (r: Fragments)
    ensures |r| == 2 && r[1] == className
    ensures Present(r) == [ElementsBase(p)] + Contribution(className)
  {
    CardFragments(ElementsBase(p), className)
  }

  /** The argument list of a Portfolio.tsx primitive, for the parts it defines. */
  function PortfolioFragments(p: Part, className: Option<string>): (r: Option<Fragments>)
    ensures r.None? <==> p == CardImage
    ensures r.Some? ==> |r.value| == 2 && r.value[1] == className
    ensures r.Some? ==> PortfolioBase(p).Some? && Present(r.value) == [PortfolioBase(p).value] + Contribution(className)
  {
    match PortfolioBase(p)
    case Some(base) => Some(CardFragments(base, className))
    case None => None
  }

  /** Every Elements.jsx primitive passes exactly two arguments: a non-empty
      base that does not depend on the caller, first, and the caller's
      className, last. */
  lemma ElementsShape(p: Part, className: Option<string>, other: Option<string>)
    ensures var r := ElementsFragments(p, className);
            |r| == 2 && r[0].Some? && r[0].value != "" && r[1] == className
            && r[0] == ElementsFragments(p, other)[0]
  {
  }

  /** The same holds of every primitive Portfolio.tsx defines, and it
      defines every part but `CardImage`. */
  lemma PortfolioShape(p: Part, className: Option<string>, other: Option<string>)
    ensures PortfolioFragments(p, className).None? <==> p == CardImage
    ensures PortfolioFragments(p, className).Some? ==>
            var r := PortfolioFragments(p, className).value;
            |r| == 2 && r[0].Some? && r[0].value != "" && r[1] == className
            && r[0] == PortfolioFragments(p, other).value[0]
  {
  }

  /** The two definitions of the family agree except on `CardHeader` and
      `CardContent`, and on `CardImage`, which Portfolio.tsx lacks. */
  lemma DefinitionsDiverge(p: Part)
    ensures PortfolioBase(p) == Some(ElementsBase(p)) <==> p !in {CardHeader, CardContent, CardImage}
  {
  }
}

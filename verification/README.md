# GEM recommendation core, in Dafny

A model of the decision core of a small Generalized Momentum (GEM) web app.
The app scores three exchange-traded funds by their trailing total return:
two equity trackers, CSPX.L and IWDA.AS, and one US Treasury bond tracker,
VUTY.L. It then recommends which one to hold. The rule is to hold the better
equity if its return is positive, and the bond otherwise.

The model has three modules:

- `Momentum` (`momentum.dfy`) models `calc_momentum`. A price series becomes
  one score, `Num(r)` or `Undefined`. `Undefined` stands for the `float("nan")`
  the app returns for a series shorter than two prices. `Gt` and `Positive`
  model Python's `>` on floats: any comparison with NaN is false.
- `Gem` (`gem.dfy`) models the ticker table `TICKERS` and `gem_recommendation`:
  - the tickers form a closed datatype, with their symbols and display names;
  - `eq` is `PresentEquities`;
  - `max(eq, key=eq.get)` is the left fold `MaxFold`, which moves to a later
    reading only when that reading compares strictly greater;
  - the result is a `Recommendation` made of a `Pick` and a `Rationale`.
    `NoPick` is the app's empty ticker `""`. The four `Rationale` variants
    carry the data the app formats into its Polish messages.
- `GemProperties` (`gem_properties.dfy`) states when each instrument is
  chosen without reference to the fold, as `EquityWins`. It proves the rule
  agrees with that statement in both directions. It also proves the tie-break,
  the bond fallback, the no-pick case and the rationale contents, and proves
  the outcome for a few concrete score maps.

The rule follows the code as written. Some consequences:

- Equities are considered when their ticker is present. An `Undefined` score
  is not filtered out.
- Python's `max` keeps the first of two equal scores, so CSPX.L wins a tie.
- If CSPX.L is `Undefined`, it stays the running best. `Undefined > 0` is
  false, so the rule falls through to the bond even when IWDA.AS is positive.
  The "no positive equity returns" rationale then lists that positive IWDA.AS
  score (`UndefinedFirstEquityMasksSecond`, `UndefinedFirstEquityExample`).
  A rule that drops undefined equities before ranking would pick IWDA.AS here.
  The app does not do that, and the model follows the app.
- The bond is chosen whenever it is present and no equity wins, whatever its
  own score, even `Undefined`.

## Model

| member | source | states |
|---|---|---|
| Momentum.Gt | app.py:87-88 | Python's float `>`: true only when both scores are defined and the first is strictly greater; any comparison with an undefined (NaN) score is false |
| Momentum.Positive | app.py:88 | `eq[best] > 0`: the score is defined and strictly greater than zero |
| Momentum.GtOrder | app.py:87-88 | on defined scores `Gt` is irreflexive, asymmetric, transitive and total up to equality; an undefined score is incomparable with every score and is never positive |
| Momentum.Last | app.py:56 | `series.iloc[-1]`: the last price of a non-empty series |
| Momentum.CalcMomentum | app.py:50-56 | the score is undefined exactly when the series has fewer than two prices; a defined score r satisfies first * (1 + r) == last |
| Momentum.EndpointsOnly | app.py:56 | two series of two or more prices with the same first and last price have the same score, whatever lies between |
| Momentum.SignFollowsEndpoints | app.py:54-56 | on positive prices with two or more points the score is defined, positive iff the last price exceeds the first, zero iff they are equal, and greater than -1 |
| Momentum.Compounds | app.py:56 | splitting a series at an inner point, the growth factors of the two halves multiply to the growth factor of the whole |
| Momentum.ScaleInvariant | app.py:56 | multiplying every price by the same nonzero factor leaves the score unchanged |
| Gem.Symbol | app.py:20-24 | each ticker's key in `TICKERS`: CSPX.L, IWDA.AS, VUTY.L |
| Gem.DisplayName | app.py:20-24 | each ticker's display name in `TICKERS`, as quoted by the best-equity message |
| Gem.TickerText | app.py:89-101 | the ticker string the rule returns: "" for no pick, otherwise the chosen ticker's key |
| Gem.Present | app.py:85 | the readings kept are exactly those tickers of the scan order that are keys of the map, each with its score copied unchanged |
| Gem.PresentEquities | app.py:85 | eq holds CSPX.L then IWDA.AS, each exactly when it is a key, with its score, defined or not |
| Gem.MaxFold | app.py:87 | the fold result is the start or a later reading; it differs from the start only if it compares strictly greater; an undefined start is kept; no reading compares strictly greater than the result |
| Gem.MaxFoldEarliestMaximum | app.py:87 | when every score is defined, the fold returns the earliest reading with the greatest score: every reading before it scores strictly less and none scores more |
| Gem.Recommend | app.py:78-101 | the pick is a key of the map or no pick; an equity is picked only with a positive score, which the rationale carries; the bond's rationale is "no equity data" iff no equity key is present; no pick iff the rationale is "no data" |
| GemProperties.EquityChoice | app.py:85-89 | an equity is picked iff it is present, positive, strictly greater than every present equity scanned before it, and not exceeded by any scanned after it |
| GemProperties.AtMostOneWinner | app.py:85-89 | at most one equity satisfies that description |
| GemProperties.TieGoesToFirst | app.py:87-89 | with both equities present at the same positive score, CSPX.L is picked with that score |
| GemProperties.UndefinedFirstEquityMasksSecond | app.py:85-101 | an undefined CSPX.L score means IWDA.AS is never picked: the result is the bond if present, else no pick |
| GemProperties.BondFallback | app.py:88-100 | the bond is picked iff it is present and no equity wins |
| GemProperties.NoPickIff | app.py:85-101 | there is no pick iff the bond is absent and no equity wins; the empty map gives no pick with the "no data" rationale |
| GemProperties.BondRationale | app.py:90-100 | when the bond is picked, the rationale lists exactly the present equities with their scores, CSPX.L first, or is "no equity data" when none is present |
| GemProperties.BondScoreIgnored | app.py:90-100 | replacing the bond's score with any value, undefined included, does not change the recommendation |
| GemProperties.WinnerStableUnderRaise | app.py:87-89 | raising the picked equity's score keeps it picked |
| GemProperties.TickerTextIsKeyOrEmpty | app.py:89-101 | the returned ticker text is "" iff there is no pick, and otherwise the symbol of a key of the map |
| GemProperties.SymbolInjective | app.py:20-24 | distinct tickers have distinct symbols |
| GemProperties.HigherPositiveEquityHeld | app.py:85-89 | CSPX.L at 10% against IWDA.AS at 5% picks CSPX.L with 10% in the rationale |
| GemProperties.NegativeEquitiesToBond | app.py:90-100 | two negative equities and an undefined bond score pick the bond, listing both equity scores |
| GemProperties.UndefinedEquitiesNoBond | app.py:85-101 | two undefined equities and no bond give no pick with the "no data" rationale |
| GemProperties.OnlyBondPresent | app.py:90-100 | a map holding only the bond picks the bond with the "no equity data" rationale, whatever its score |
| GemProperties.UndefinedFirstEquityExample | app.py:85-100 | CSPX.L undefined, IWDA.AS at 20% and the bond present pick the bond, and the rationale lists IWDA.AS at 20% |

## Left out

- `fetch_history` (app.py:33-47): a network call to the market-data service. The model takes the price series, and the score map built from them, as inputs.
- `generate_return_plot` (app.py:59-75): chart rendering and writing a PNG file.
- The web routes `index` and `image` (app.py:104-142): request handling, templates and file serving. The loop in `index` only decides which tickers end up in the score map. `Recommend` takes any such map, the empty one included.
- Message text: the Polish wording and the one-decimal percentage formatting (`:.1%`) of the rationale. `Rationale` keeps the ticker and score each message is built from. `DisplayName` keeps the display names the best-equity message quotes.
- Floating point: prices and scores are exact reals. Rounding is not modelled. NaN is the explicit `Undefined`.
- Momentum.CalcMomentum: requires a nonzero first price when the series has two or more prices, because real division by zero is undefined. The app would divide floats there and get an infinity or a NaN. Prices from the data service are positive, so this case does not arise in the app.
- The timestamps of the price series are not modelled. Only the order of the prices matters to the score.

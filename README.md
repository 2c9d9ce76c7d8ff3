# GAagent decision core, modelled in Dafny

The system is a negotiation agent for the Genius platform. It is built from three parts:

- **Opponent model.** `JohnnyOpponentModel` counts how often each value of each issue appears in the opponent's bids. After every offer it re-sorts the per-issue frequency tables by descending count and re-ranks the values by competition ranking; a value of rank `rank` among `n` values scores `(n - rank + 1) / n`. The opponent's utility of a bid is the sum over issues of score times issue weight. The issue weights stay at the uniform `1/k` they get at construction: `updateOpponentPreference` computes normalised concentration weights into a local list and then drops them, and the model keeps that behaviour.
- **Genetic agent.** `GAagent` seeds a population of at most 100 bids from the user's ranking. Before any offer arrives, it opens with its best bid. It accepts an offer that is worth its best bid or that it has offered itself. Otherwise it breeds one generation and offers a bid drawn from the three fittest members, or accepts the offer if that bid is worth less than the offer. A generation consists of:
  - evaluation of every member;
  - elitism: the best tenth by fitness is kept;
  - binary tournaments that fill the mating pool;
  - segment-swap crossover over pairs of neighbouring population members;
  - per-issue mutation;
  - a refill without duplicates: mutated children first, then shuffled children, then shuffled tournament winners, up to 100 bids;
  - evaluation of the members that joined with fitness 0.
- **Preference estimator.** `LinearProgrammingUtilitySpaceEstimator` turns the user's ranked bids into a linear program:
  - one variable `x` per (issue, value) and one slack `z` per comparison;
  - the objective minimises the slacks;
  - rows `x >= 0` and `z >= 0`;
  - one row per comparison, `z_k - x(lower bid) + x(higher bid) >= 0`;
  - one row fixing the maximal bid's values to sum to 1.

  It then raises every `x` entry of the solver's answer by the magnitude of the most negative one, and reads each value's utility off its entry.

The model has four modules:

- `Domain` (domain.dfy). Bids are sequences of value positions, one per issue.
- `OpponentModel` (opponent_model.dfy). A class `JohnnyOpponentModel`. Each Java frequency `LinkedHashMap` is represented by its counts `freq[i]` plus its iteration order `order[i]`.
- `GeneticAgent` (ga_agent.dfy). A class `GAagent`. The population `HashMap` is `popList: map<Bid, real>` plus its iteration order `popOrder`. Every random draw is an explicit `Draws` input. Fitness and own utility are functions given from outside.
- `LinearProgramming` (lp_estimator.dfy). A class `LinearProgrammingUtilitySpaceEstimator`. Rows are built in arrays exactly as the Java code builds them, and are proved equal to a functional `Formulation` of the program. The solver is a function parameter.

Doubles are modelled as mathematical reals.

## Model

| member | source | states |
|---|---|---|
| Domain.NatToStringInjective | code/LinearProgrammingUtilitySpaceEstimator.java:44 | Different issue numbers have different decimal strings, the basis of name uniqueness. |
| OpponentModel.JohnnyOpponentModel.constructor | code/JohnnyOpponentModel.java:26-44 | Every counter is 0, every value of every issue scores 1.0 (and the rank maps hold no other key), every issue weighs `1/k`, no bid is counted, and the object satisfies its invariant. |
| OpponentModel.InitialTable | code/JohnnyOpponentModel.java:31-43 | A table of zero counters listed in domain order counts 0 bids, lists every value once and is sorted. |
| OpponentModel.JohnnyOpponentModel.AddOpponentFrequency | code/JohnnyOpponentModel.java:92-101 | Exactly the counter of the bid's value on each issue goes up by 1. The bid count goes up by 1. Orders, ranks and weights are unchanged. Every issue's counters still sum to the bid count. |
| OpponentModel.IncrementKeepsTable | code/JohnnyOpponentModel.java:95-99 | One more observation of a value keeps the table well formed, with counts summing to one more bid. |
| OpponentModel.SortByCount | code/JohnnyOpponentModel.java:108-109 | The stable sort by descending count returns a permutation of the listed values. |
| OpponentModel.SortIsSorted | code/JohnnyOpponentModel.java:109 | The sorted list has non-increasing counts. |
| OpponentModel.InsertKeepsSorted | code/JohnnyOpponentModel.java:109 | One insertion step of the sort keeps the list ordered by descending count. |
| OpponentModel.JohnnyOpponentModel.SortOpponentFrequency | code/JohnnyOpponentModel.java:103-118 | Every table is re-listed by descending count as a permutation of its old order. Counts, ranks, weights and the bid count are unchanged. |
| OpponentModel.CountsOfTable | code/JohnnyOpponentModel.java:106-115 | Reading a table in any order that lists each value once gives the multiset of its counts, so re-sorting does not change the issue→value→count mapping. |
| OpponentModel.CountAbovePermutation | code/JohnnyOpponentModel.java:66-74 | The number of counts above a given count does not depend on the listing order. |
| OpponentModel.CountAboveSorted | code/JohnnyOpponentModel.java:66-74 | In a descending listing, the counts above `c` are exactly the prefix before the first count `<= c`. This is what the running `rank`/`sameRank` computes. |
| OpponentModel.TopCountPositive | code/JohnnyOpponentModel.java:64-74 | After at least one bid, the first listed value has a non-zero count, so `lastFrequency = 0` never merges it with a zero count. |
| OpponentModel.JohnnyOpponentModel.RankValues | code/JohnnyOpponentModel.java:57-79 | For one sorted issue table, each value's score is `(n - rank + 1) / n` with rank = 1 + the number of values with a strictly higher count. The rank map has exactly the issue's values as keys. The accumulated weight is the sum of squared shares and is positive. |
| OpponentModel.RankedPrefixStep | code/JohnnyOpponentModel.java:66-76 | Scoring the next listed value extends the correctly ranked prefix by one. |
| OpponentModel.RankedByTable | code/JohnnyOpponentModel.java:61-76 | Scores put along the whole listing form the issue's competition ranking. |
| OpponentModel.ConcentrationStep | code/JohnnyOpponentModel.java:78 | Adding the next squared share extends the concentration sum and keeps it positive. |
| OpponentModel.RankScoreBounds | code/JohnnyOpponentModel.java:75 | Every score lies in `[1/n, 1]`. |
| OpponentModel.RankScoreOfTop | code/JohnnyOpponentModel.java:66-75 | A value of maximal frequency scores exactly 1. |
| OpponentModel.RankScoreMonotone | code/JohnnyOpponentModel.java:66-75 | On one issue, `freq(a) >= freq(b)` implies `score(a) >= score(b)`. |
| OpponentModel.JohnnyOpponentModel.UpdateOpponentPreference | code/JohnnyOpponentModel.java:46-90 | The bid's value counters and the bid count go up by 1 and the tables are only reordered. The weights are unchanged, since the normalised list is local. Afterwards every issue is competition-ranked from its counts. |
| OpponentModel.JohnnyOpponentModel.ScoresOfBid | code/JohnnyOpponentModel.java:61-76 | Every value of a valid bid has a score in (0, 1], and the score is 1 before any observation. |
| OpponentModel.JohnnyOpponentModel.GetOpponentUtility | code/JohnnyOpponentModel.java:120-129 | The result is the sum over issues of score × weight. It is exactly 1 before any update and lies in (0, 1] afterwards. |
| OpponentModel.UniformPriorUtility | code/JohnnyOpponentModel.java:120-129 | With all scores 1 and uniform weights, the weighted sum is 1. |
| OpponentModel.ScoredUtilityRange | code/JohnnyOpponentModel.java:120-129 | With scores in (0, 1] and uniform weights, the weighted sum lies in (0, 1]. |
| GeneticAgent.SeedStart | code/GAagent.java:66-70 | The population is seeded from the last `min(100, size)` bids of the ranking. |
| GeneticAgent.PutAll | code/GAagent.java:71-73 | Every bid of the list is in the map with fitness 0, listed once; the map holds no other bid. |
| GeneticAgent.SeedPopulation | code/GAagent.java:63-73 | The seeded population holds exactly the bids of that suffix, each with fitness 0, listed once each, at most 100 of them. |
| GeneticAgent.GAagent.constructor | code/GAagent.java:54-80 | The population holds exactly the seeded suffix of the ranking, each bid with fitness 0. The history is empty, no offer has been received, and `bidMaxUtil` is the utility of the best bid. The new opponent model has counted no bid, every counter is 0, every value scores 1 and every issue weighs `1/k`. |
| GeneticAgent.GAagent.ReceiveOffer | code/GAagent.java:320-331 | The offer becomes the last received offer. In the opponent model, the bid count and, on each issue, exactly the counter of the offer's value go up by 1, and the weights are unchanged. The population and the history are unchanged. |
| GeneticAgent.Evaluated | code/GAagent.java:116-119 | Evaluation keeps the same bids and gives each its fitness. |
| GeneticAgent.GAagent.EvaluatePopulation | code/GAagent.java:116-119 | After the loop, every member carries its fitness. |
| GeneticAgent.SortByFitness | code/GAagent.java:124-125 | The stable sort by descending fitness returns a permutation of the listing. |
| GeneticAgent.SortSorted | code/GAagent.java:125 | The sorted listing has non-increasing fitness. |
| GeneticAgent.TopK | code/GAagent.java:123-126 | The first `k` bids by fitness are `k` distinct members, each at least as fit as every member left out. |
| GeneticAgent.TopKFacts | code/GAagent.java:123-126 | The prefix of the sorted listing is duplicate-free and dominates the rest. |
| GeneticAgent.KeepElites | code/GAagent.java:127-129 | The new population starts as exactly the elites, each with its fitness. |
| GeneticAgent.MatingPoolSize | code/GAagent.java:137-140 | The pool size is `min(80, population size)`. |
| GeneticAgent.Tournament | code/GAagent.java:142-153 | The pool has `min(80, population size)` entries, all members of the population. Entry `t` is one of the two bids drawn for tournament `t`, at least as fit as both, and the second one on a tie. |
| GeneticAgent.Partner | code/GAagent.java:162-167 | Parent `i` is paired with `i + 1`, wrapping to 0 at the end of the listing. |
| GeneticAgent.SwapSegment | code/GAagent.java:174-191 | The children swap the parents' values over `[min(s,e), max(s,e)]` and keep every other position. |
| GeneticAgent.SwapTwice | code/GAagent.java:182-191 | Swapping the same segment twice restores the parents. |
| GeneticAgent.SwapKeepsValid | code/GAagent.java:182-191 | Children of valid bids are valid bids. |
| GeneticAgent.Crossover | code/GAagent.java:157-195 | One pair of children per even index below the pool size. Each pair comes from parent `2p` and its partner, crossed as draw `p` says. All children are valid. |
| GeneticAgent.MutateBid | code/GAagent.java:201-210 | Only issues whose trigger fired change, each to a value of that issue's own value set. |
| GeneticAgent.Mutate | code/GAagent.java:199-212 | Every child is mutated by its own draw and stays valid. |
| GeneticAgent.Shuffle | code/GAagent.java:232 | A shuffle has the same length and the same members. |
| GeneticAgent.ShuffleMembers | code/GAagent.java:247 | Reordering by an index permutation keeps exactly the same members. |
| GeneticAgent.ListingAdd | code/GAagent.java:224 | Putting a new bid into the map appends it once to the iteration order. |
| GeneticAgent.Fresh | code/GAagent.java:218-224 | What a pass over a candidate list adds: exactly the candidates not yet in the population, without duplicates. |
| GeneticAgent.Admit | code/GAagent.java:219-224 | A candidate not yet in the population joins it at the end of the listing with its old fitness or 0, and the counter goes up by 1. A member is skipped, and nothing changes. |
| GeneticAgent.FillFrom | code/GAagent.java:218-230 | The new listing is the old one followed by the visited candidates that were not yet members, each once and in order of first occurrence. Every member has its inherited fitness (old fitness, or 0 for a bid not in the old population). The count never passes 100. The pass stops before the end of the candidates only when the count reaches 100, and it visits the last candidate only while the count is below 100. When the count stays below 100, every candidate is in the population. |
| GeneticAgent.Repopulate | code/GAagent.java:217-259 | The new listing is duplicate-free, starts with the elites, which keep their fitness, and has at most 100 bids. Every other member is a mutated child, a shuffled child or a shuffled tournament winner, with its old fitness or 0. Priority: a shuffled child joins only if every mutated child is in, and a tournament winner only if every shuffled child is in too. Completeness: a population short of 100 holds every candidate. Order: the listing is exactly the elites followed by one greedy pass over the mutated children, then the shuffled children, then the shuffled winners (`GreedyRefill`). Each visited candidate not yet present joins in turn, and the pass stops early only at 100. |
| GeneticAgent.RefillAll | code/GAagent.java:217-258 | The three nested passes continue the greedy pass after the elites over the concatenation of the three candidate lists. Every member keeps its inherited fitness. |
| GeneticAgent.RefillTail | code/GAagent.java:231-258 | After a mutation pass that ended short of 100, the crossover pass and, if still short, the selection pass continue the same greedy pass. |
| GeneticAgent.RefillPass | code/GAagent.java:218-230 | One loop over a candidate list continues the greedy pass over the lists before it. A loop that ends short of 100 has visited its whole list. |
| GeneticAgent.FreshAppend | code/GAagent.java:217-258 | A pass over `a + c` adds what a pass over `a` adds, then what a pass over `c` adds to the grown population. So consecutive loops make up one pass over the concatenated lists. |
| GeneticAgent.GreedyPass | code/GAagent.java:218-230 | The loop's result (the order equation of `FillFrom`) extends a greedy pass over the earlier lists to one over the earlier lists plus this one. |
| GeneticAgent.GreedyFull | code/GAagent.java:227-231 | Once 100 bids are listed, skipping the remaining lists leaves the greedy pass over all lists unchanged. |
| GeneticAgent.GreedyShape | code/GAagent.java:217-258 | A greedy pass after the elites lists no bid twice, starts with the elites and never passes 100 bids. |
| GeneticAgent.GreedySource | code/GAagent.java:217-258 | Every non-elite member was visited by the pass. |
| GeneticAgent.GreedyVisited | code/GAagent.java:219-226 | Every visited candidate is in the population, either added or already present. |
| GeneticAgent.GreedyComplete | code/GAagent.java:227-229 | A pass that ends short of 100 holds every candidate. |
| GeneticAgent.GreedyPriority | code/GAagent.java:231-247 | The pass takes a shuffled child only once every mutated child is in, and a tournament winner only once every shuffled child is in. |
| GeneticAgent.GreedyIsRefill | code/GAagent.java:217-258 | The greedy pass over the mutated children, the shuffled children and the shuffled winners after the elites satisfies the whole `Refill` predicate: distinct, elites first, at most 100 bids, sources, priority, completeness and order. |
| GeneticAgent.Reproduce | code/GAagent.java:131-247 | The offspring are exactly what the draws give: the tournament winners (`Selected`), the children of the crossover of each pair (`Crossed`), and each child mutated by its own draw (`MutatedFrom`). The two shuffled lists are these lists reordered by the shuffle draws. All children are valid bids and every shuffled winner is a member of the population. |
| GeneticAgent.NextGeneration | code/GAagent.java:112-259 | The returned offspring are what the draws breed from the population. The next generation is a population of valid bids whose listing is the refill of the top tenth from those offspring and the shuffles. That refill follows priority, and its order is the greedy pass over the mutated children, then the shuffled children, then the shuffled winners. Each member carries its inherited fitness. |
| GeneticAgent.Rescored | code/GAagent.java:260-264 | Re-scoring keeps the same bids. |
| GeneticAgent.GAagent.RescoreZeros | code/GAagent.java:260-264 | Members of fitness 0 are evaluated and the others keep their fitness. |
| GeneticAgent.RescoredEvaluates | code/GAagent.java:260-264 | When every member has its fitness or 0, re-scoring evaluates the whole population. |
| GeneticAgent.BreedOutcome | code/GAagent.java:112-264 | A next generation of the evaluated population, followed by the re-scoring, is `Bred` from the draws: its listing is the refill of the evaluated population's top tenth from the offspring the draws breed, and every member carries its fitness. |
| GeneticAgent.GAagent.Breed | code/GAagent.java:112-264 | The generation step leaves a valid population that is `Bred` from the old one by the draws, with the offspring it used returned as a ghost. |
| GeneticAgent.GAagent.Decide | code/GAagent.java:267-286 | The shortlist pick among the three fittest is offered iff it is worth at least the received offer. It is then added to the history only if absent; otherwise the offer is accepted. Fewer than three members end in the shortlist exception. |
| GeneticAgent.GAagent.Respond | code/GAagent.java:110-287 | The population is `Bred` from the old one by the draws. The answer and the history are those `Decide` gives on the new population, and the last received offer is unchanged. |
| GeneticAgent.GAagent.ChooseAction | code/GAagent.java:98-293 | With no offer received, it offers the best bid and appends it to the history unconditionally. An offer worth `bidMaxUtil` or already offered (`AcceptsOutright`, code/GAagent.java:105) is accepted, with population and history unchanged. Otherwise the population is `Bred` from the old one by the draws and the answer is the one `Decide` gives. |
| LinearProgramming.LinearProgrammingUtilitySpaceEstimator.constructor | code/LinearProgrammingUtilitySpaceEstimator.java:34-52 | There is one variable name per (issue, value), in domain order, and `variableXSize` is the total number of values. Every weight is `1/noIssues`, every evaluation is 0, and `constraintNum` is 1. |
| LinearProgramming.XNameInjective | code/LinearProgrammingUtilitySpaceEstimator.java:44 | `"w" + number + "x" + value` determines both the number and the value, because the digits end at the first `x`. |
| LinearProgramming.IndexOf | code/LinearProgrammingUtilitySpaceEstimator.java:94 | `indexOf` gives the first position holding the name, or -1 exactly when the name is absent. |
| LinearProgramming.XNamesLength | code/LinearProgrammingUtilitySpaceEstimator.java:42-46 | There are as many value names as values. |
| LinearProgramming.XIndexLayout | code/LinearProgrammingUtilitySpaceEstimator.java:42-46 | Each (issue, value) has its own position below `variableXSize`. |
| LinearProgramming.IndexOfXName | code/LinearProgrammingUtilitySpaceEstimator.java:94 | Looking up a value's name finds that value's layout position. |
| LinearProgramming.IndexOfXNameExtended | code/LinearProgrammingUtilitySpaceEstimator.java:147-148 | The lookup still lands there after slack names have been appended. |
| LinearProgramming.LinearProgrammingUtilitySpaceEstimator.VariableOf | code/LinearProgrammingUtilitySpaceEstimator.java:162 | The name lookup returns the value's layout position, which is below `variableXSize`. |
| LinearProgramming.Objective | code/LinearProgrammingUtilitySpaceEstimator.java:116-119 | The objective has `variableXSize + comparisons` entries: 0 on every `x` and 1 on every slack. |
| LinearProgramming.LinearProgrammingUtilitySpaceEstimator.Clone | code/LinearProgrammingUtilitySpaceEstimator.java:116 | `double[].clone()`: a fresh array with the same contents. It is used at lines 116, 127, 138 and 160. |
| LinearProgramming.LinearProgrammingUtilitySpaceEstimator.ZeroVector | code/LinearProgrammingUtilitySpaceEstimator.java:107-113 | A fresh array of zeros of the given length. |
| LinearProgramming.LinearProgrammingUtilitySpaceEstimator.ObjectiveVector | code/LinearProgrammingUtilitySpaceEstimator.java:116-119 | The cloned row with 1 on every slack is the objective. |
| LinearProgramming.Unit | code/LinearProgrammingUtilitySpaceEstimator.java:127-128 | A cloned zero row with one entry set is 1 there and 0 elsewhere. |
| LinearProgramming.LinearProgrammingUtilitySpaceEstimator.AddXRows | code/LinearProgrammingUtilitySpaceEstimator.java:126-132 | The loop builds the rows `x_j >= 0`, one per value variable, numbered on from `constraintNum`. |
| LinearProgramming.XRowsAt | code/LinearProgrammingUtilitySpaceEstimator.java:126-132 | Row `t` of the x rows is `x_t >= 0`. |
| LinearProgramming.LinearProgrammingUtilitySpaceEstimator.Move | code/LinearProgrammingUtilitySpaceEstimator.java:149-150 | One issue's step takes 1 off the lower bid's entry and then adds 1 to the higher bid's entry. |
| LinearProgramming.LinearProgrammingUtilitySpaceEstimator.AddComparison | code/LinearProgrammingUtilitySpaceEstimator.java:146-151 | The loop over issues produces the comparison row of the two bids. |
| LinearProgramming.AddIssuesOutside | code/LinearProgrammingUtilitySpaceEstimator.java:146-151 | The issue loop never touches a slack entry. |
| LinearProgramming.AddIssuesValue | code/LinearProgrammingUtilitySpaceEstimator.java:146-151 | On the entry of value `v` of issue `i`, the loop adds +1 if only the higher bid picks `v`, -1 if only the lower one does, and 0 otherwise. |
| LinearProgramming.ComparisonRowSlack | code/LinearProgrammingUtilitySpaceEstimator.java:138-139 | On the slacks, the comparison row of comparison `k` is 1 on slack `k` and 0 on every other slack. |
| LinearProgramming.ComparisonRowValues | code/LinearProgrammingUtilitySpaceEstimator.java:146-151 | On the `x` entries, the comparison row is +1/-1/0 as above; it is 0 when both bids share the value. |
| LinearProgramming.LinearProgrammingUtilitySpaceEstimator.NameSlack | code/LinearProgrammingUtilitySpaceEstimator.java:141-142 | The slack name `"z" + zNum` is appended after the earlier slack names. |
| LinearProgramming.LinearProgrammingUtilitySpaceEstimator.ComparisonConstraints | code/LinearProgrammingUtilitySpaceEstimator.java:138-155 | One comparison yields its slack row `z_k >= 0` and its comparison row `>= 0`, numbered consecutively. |
| LinearProgramming.LinearProgrammingUtilitySpaceEstimator.AddComparisonPair | code/LinearProgrammingUtilitySpaceEstimator.java:137-155 | One round of the comparison loop appends the two rows, advances the counter by 2 and names one slack. |
| LinearProgramming.LinearProgrammingUtilitySpaceEstimator.AddComparisonRows | code/LinearProgrammingUtilitySpaceEstimator.java:134-156 | The loop builds two rows per comparison, advances `constraintNum` by twice the number of comparisons and appends `z1`..`zm` to the variable names. |
| LinearProgramming.LinearProgrammingUtilitySpaceEstimator.AddBest | code/LinearProgrammingUtilitySpaceEstimator.java:161-164 | The loop sets 1 at each of the maximal bid's value variables. |
| LinearProgramming.BestRowValue | code/LinearProgrammingUtilitySpaceEstimator.java:161-164 | On the entry of value `v` of issue `i`, the best row is 1 if the maximal bid picks `v` and unchanged otherwise. |
| LinearProgramming.BestRowOutside | code/LinearProgrammingUtilitySpaceEstimator.java:161-164 | The best row never touches a slack entry. |
| LinearProgramming.BestRowContents | code/LinearProgrammingUtilitySpaceEstimator.java:159-165 | The best-bid row is 1 on each of the maximal bid's values and 0 on every other value and every slack. |
| LinearProgramming.LinearProgrammingUtilitySpaceEstimator.BestConstraint | code/LinearProgrammingUtilitySpaceEstimator.java:159-165 | The last row is that best row, as an equality to 1. |
| LinearProgramming.FormulationShape | code/LinearProgrammingUtilitySpaceEstimator.java:106-169 | The program is a minimisation over `variableXSize + comparisons` variables with the objective above. It has exactly `variableXSize + 2*comparisons + 1` rows, the last being the best-bid equality. |
| LinearProgramming.FormulationXRows | code/LinearProgrammingUtilitySpaceEstimator.java:126-132 | The first `variableXSize` rows say `x_j >= 0`. |
| LinearProgramming.FormulationComparisonRows | code/LinearProgrammingUtilitySpaceEstimator.java:137-156 | Row `variableXSize + 2k` is the unit row of slack `k`, `>= 0`, named `c0 + variableXSize + 2k`. Row `variableXSize + 2k + 1` is the comparison row of the two bids of comparison `k` (+1 on the higher bid's values, -1 on the lower one's, 1 on slack `k`), `>= 0`, named one higher. |
| LinearProgramming.LinearProgrammingUtilitySpaceEstimator.GetLinearSolution | code/LinearProgrammingUtilitySpaceEstimator.java:106-169 | The program built is exactly the `Formulation` of the ranking. `constraintNum` advances by `variableXSize + 2*comparisons + 1` and `z1`..`zm` are appended to the names. |
| LinearProgramming.NegNum | code/LinearProgrammingUtilitySpaceEstimator.java:77-82 | `negNum` is at most 0 and at most every `x` entry, and when negative it is one of them. |
| LinearProgramming.Shift | code/LinearProgrammingUtilitySpaceEstimator.java:76-88 | After the shift every `x` entry is `>= 0`, pairwise differences among `x` entries are kept, and slacks are untouched. With no negative entry the solution is unchanged; otherwise some `x` entry becomes 0. |
| LinearProgramming.LinearProgrammingUtilitySpaceEstimator.ShiftNegatives | code/LinearProgrammingUtilitySpaceEstimator.java:76-88 | The two loops shift the solution array in place. |
| LinearProgramming.LinearProgrammingUtilitySpaceEstimator.AssignIssue | code/LinearProgrammingUtilitySpaceEstimator.java:93-99 | Every value of one issue gets its solution entry, and the other issues are unchanged. |
| LinearProgramming.LinearProgrammingUtilitySpaceEstimator.AssignPass | code/LinearProgrammingUtilitySpaceEstimator.java:91-100 | One pass sets every value's utility to its solution entry, whatever the utilities were before. |
| LinearProgramming.LinearProgrammingUtilitySpaceEstimator.AssignUtilities | code/LinearProgrammingUtilitySpaceEstimator.java:90-101 | Repeating the pass `variableXSize` times gives the result of one pass (idempotence). With no value variables nothing changes. |
| LinearProgramming.AssignedNonNegative | code/LinearProgrammingUtilitySpaceEstimator.java:76-101 | Utilities read off the shifted solution are all non-negative. |
| LinearProgramming.LinearProgrammingUtilitySpaceEstimator.EstimateUsingBidRanks | code/LinearProgrammingUtilitySpaceEstimator.java:73-104 | It solves the `Formulation` of the ranking and reads every value utility off the shifted answer. Weights are unchanged. `constraintNum` advances by `variableXSize + 2*comparisons + 1`, and `z1`..`zm` are appended to the variable names. |

## Left out

- `getFitness` (code/GAagent.java:295-317) uses `Math.sqrt` and Genius evaluators. The fitness of a bid is a function parameter, taken with the received offer and the time pressure already applied.
- The time pressure `1 - t^(1/beta)` (code/GAagent.java:100-101) is left out because it uses `Math.pow` and the clock; it only enters through the fitness parameter.
- Genius utility calls are inputs rather than modelled code:
  - `getUtility` is the `util` function;
  - `getMaxUtilityBid` is the `maxBid` constant;
  - `bidMaxUtil` is `util(maxBid)`.
- `solver.solve` is a function parameter that returns `None` when it yields no array. In that case `EstimateUsingBidRanks` stops without assigning anything; the Java code would fail on the missing array.
- The Genius normalisation at the end of `estimateUsingBidRanks` is left out because these are library calls whose behaviour is not shown. This covers `normalizeAll`, `scaleAllValuesFrom0To1` and `normalizeWeights`.
- The Genius utility space is left out: `AdditiveUtilitySpace` and its evaluators become the `weights` and `evaluation` fields. This also leaves out:
  - `setWeight`;
  - `getUtility`;
  - `setUtility`'s branch that creates a missing evaluator (every issue has one from the constructor);
  - the getters.
- Whether `LinearBiggerThanEqualsConstraint` copies the array it is given or keeps a reference is library behaviour. Each row is modelled as a copy of the array at the time it is added, which is the program the code evidently means.
- `variableValue` is a field in Java; it is a local array here because no other code reads it.
- Constraint names `"c" + n` are kept as the number `n`; `ConstraintName` gives the string.
- The random number generators are left out: every draw is an explicit input (`Draws`), and `Collections.shuffle` is any index permutation.
- HashMap iteration order is an arbitrary fixed order. It is the explicit order `popOrder`, which the new population map extends in insertion order.
- The second shortlist draw `bestFitness` (code/GAagent.java:273) only feeds a log line.
- `println` logging, `getDescription`, `estimateUtilitySpace` and the rest of `init` are left out: the opponent model's construction and `bidMaxUtil` are constructor inputs.
- `subList(0, 3)` on a population of fewer than three bids throws. This is modelled as the outcome `ShortlistTooSmall`, not as a precondition.
- `numElit` is `(int)(size * 0.1)`. It is modelled as `size / 10`, which is equal for every population size (the double nearest 0.1 lies above 0.1).
- The ranking is given as its list of pairwise comparisons and its maximal bid, the two things `getPairwiseComparisons` and `getMaximalBid` return. How Genius derives them from the bid order is not modelled.
- `WellNamed` is assumed of the domain: issue numbers are distinct and the values of an issue are distinct. The Java name lookup relies on this.
- `Breed`'s contract covers `popList` and `popOrder` only. `Respond` restores the full object invariant around it, because the breeding loops are split into the helper methods `Reproduce`, `NextGeneration`, `FillFrom`, `Visit`, `Admit`, `KeepElites`, `Repopulate`, `RefillAll`, `RefillTail` and `RefillPass`.
- `Breed`, `Respond` and `ChooseAction` also return the offspring of the generation (tournament winners, children, mutated children) as a ghost result. It does not exist in the Java code; it lets their contracts say that the new population is the one the draws breed.
- `FillFrom` requires the counter to be below 100 on entry, because the Java loop tests `currentPop == popSize` only after adding a bid. At each of its three calls the counter is below 100: there are fewer than 100 elites, and a later pass runs only when the earlier one ended short of 100.
- The loops of `getLinearSolution` and `estimateUsingBidRanks` are split into helper methods, each proved against the function it builds. These helpers are `ZeroVector`, `ObjectiveVector`, `AddXRows`, `AddComparisonRows`, `AddComparisonPair`, `NameSlack`, `ComparisonConstraints`, `BestConstraint`, `AddComparison`, `Move`, `AddBest`, `ShiftNegatives`, `AssignUtilities`, `AssignPass` and `AssignIssue`.
- Integer overflow of the Java `int` counters is not modelled: counts, ranks and indices are unbounded naturals.

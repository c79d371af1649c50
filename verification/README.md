# Nepomuk core: queries, services, saved queries and resource graphs, verified

A Dafny model of four parts of Nepomuk, with proofs about each.

**Queries** (`libnepomukcore/query`). `Terms` holds the query term tree, its validity and the
equality that `==` computes; `Denotation` says which resources of a finite triple store a term
matches. `Optimizer` is `Term::optimized()`, `OptimizerSoundness` says when it keeps the meaning,
`EvenMore` is the second optimizer pass. `Sparql` is a pattern tree with the semantics of sections
18.2.2, 18.5 and 18.6 of the W3C SPARQL 1.1 Query Language recommendation (NOT EXISTS as in section
8.1: the solution is substituted into the pattern; a FILTER covers its whole group). `Compiler` is
the compilation of terms to such patterns as a function of the variable counter; `QueryBuilder` is
the same compilation as the source has it, methods that advance the fields of `QueryBuilderData`,
proved equal to that function. `FullText` and `CompilerSat` treat the search text of a literal,
`CompilerVars` and `CompilerSubst` what variables a compiled term mentions, `CompilerProof` what
compiled patterns find and that they return what terms match, and `OptionalParts` OPTIONAL parts
anywhere in a conjunction. `Query` builds the term of a query with its request properties and
folders, `OptimizerKeeps` shows that both passes leave terms the compiler can take, `NegatedText`
treats the one place where the text of a pattern is edited, `QueryResults` goes the whole way from a
query to the resources it returns, and `QueryModes` compares ask and count queries with the query
itself. `SearchText` says without the scanner what it reads from a search text, `PatternParts` what
has a score and what has no pattern, and `NamedValues` and `RequestedValues` which values of its
request properties a query gives with each resource.

**Services** (`server`). `Dependencies` and `DependencyCleanup` are the dependency tree, its search
and its cleanup. `Controllers` is the state machine of one service, `Processes` the process that is
restarted when it crashes. `ServiceManager` writes what the service manager does as functions on its
state and lists the events that can reach it; `ManagerMethods` is the manager itself, with fields
changed in place by recursive methods and loops, proved equal to those functions for any order in
which the hashes and sets are walked. `ServiceOrdering`, `ServiceStartup`, `ServiceShutdown` and
`ServiceLosses` prove what holds over whole runs of events, `ServiceScope` how far one request
reaches, `StorageFirst` what the dependency on the storage service comes to, and `Server` adds the
global state that switches Nepomuk on and off.

**Saved queries** (`libnepomukcore/query/queryserializer.cpp`). `Xml` is the token stream with a
writer and a reader that only moves forward, `Texts` numbers and lists as text. `QuerySerializer` and
`StoredQueries` prove what comes back when a term or a query is written and read, `LoadedQueries`
what is read from any other document; `SerializerMethods` is the recursive writer and reader on those
objects.

**Resource graphs** (`libnepomukcore/datamanagement`). `SimpleResources` has resources as multisets of
property-value pairs, graphs of them, statements with blank nodes, and the names of blank nodes.

`Counting` holds counting arguments that several modules share. A model value stands for what the
source takes from outside: the text, score and comparison functions of the store's engine, the order
in which a hash is walked, which D-Bus names are taken, whether a process ended.

What the proofs turned up:

- `==` on terms is an equivalence on optimized terms. On others it is not symmetric: a list of
  subterms is compared symmetrically with every other exactly if it repeats none of them
  (`TermEquality.SymmetricExactlyWithoutRepeats`).
- `optimized()` is documented to keep the meaning. It changes it where the operand of a comparison,
  as a group whose members all come down to one literal or resource, becomes that literal or
  resource, except in three harmless cases (`OptimizerSoundness.CollapseExactly`); it keeps it for
  every term without such operands (`OptimizerSoundness.Sound`).
- The `not` keyword of a search text has no effect: the flag it sets is cleared at the end of the
  same token (`FullText.NegationIsLost`). That goes wrong exactly for texts with a word directly behind
  a `not` (`SearchText.NotIsLostExactly`).
- A text with both `and` and `or` is read by the last of them alone (`SearchText.ReadTextIs`).
- A comparison of a resource with a literal by order has no pattern, so it is ignored
  (`PatternParts.IgnoredExactly`).
- A regular expression comparison is negated in place: the pattern finds what has a value that does
  not match (`CompilerProof.CompileCorrect`). That is a negation at a resource exactly if the
  resource has one value of the property (`CompilerProof.NegatedRegexpExactly`).
- The `!` for that goes into the generated text behind the first FILTER. It hits the filter exactly if
  neither the property nor a name contains that word (`NegatedText.MarkNegatesExactly`). Without an
  operand there is no filter, and the `!` goes into the property, which makes it another one
  (`NegatedText.MarkMovesProperty`).
- An OPTIONAL part in front of the conjuncts that bind the result is not optional
  (`OptionalParts.OptionalInFrontRestricts`); behind one of them it is harmless
  (`OptionalParts.OptionalBehindIsHarmless`). Queries put theirs at the end
  (`QueryResults.SortsOptionals`).
- `&&` and `||` drop an operand that is neither a group of their kind nor valid as a whole, although
  it may say something (`Query.AndTermsMeans`); so a query can lose its own term. The ask query keeps
  it, and the two are about different resources, only if the query has no file restriction, has
  request properties and all of them are optional (`QueryModes.OwnTermIsLostExactly`,
  `QueryModes.ModesCanDiffer`); in all other cases they agree (`QueryModes.CountsWhatItReturns`).
- A query that asks for nothing but optional request properties returns what has the first of them
  that anything has (`QueryModes.OnlyOptionalReturns`).
- The search for dependency cycles ends exactly if the part of the tree that it enters has no cycle
  (`Dependencies.SearchEndsExactly`). A dependency that leads into a cycle past the service asked for
  is enough for it not to end (`Dependencies.EndlessSearch`). The cleanup ends in every order of its
  hash exactly if every scan ends (`DependencyCleanup.EveryWalkEndsExactly`); otherwise the order can
  decide (`DependencyCleanup.OrderDecides`).
- A report of success that arrives after its service was reset makes a dependent start too early
  (`ServiceOrdering.LateReportBreaksOrder`); without such reports the order holds in every run.
- An attached service that goes away is not restarted, although the code calls `start()` for it, nor
  by any later start (`ServiceLosses.LostServiceIsNotRestarted`). One that crashed and was launched
  again cannot report until it ends again (`ServiceLosses.RelaunchedServiceIsMute`). One that waits
  for an attached dependent to go down waits in vain
  (`ServiceLosses.AttachedDependentIsWaitedForInVain`).
- A service whose process cannot be started is never reset, so that it cannot be started again
  (`ServiceLosses.FailedServiceIsStuck`).
- Switched off while nothing runs, the server never reaches the disabled state
  (`Server.DisabledWhenAllDown`).
- A document can give a comparison a descending order without a sort weight. That is read, but lost
  when the query is saved again; nothing else is (`LoadedQueries.SavingKeepsExactly`).
- `Term::fromString` reads empty groups, which `parseQuery` takes for an error
  (`QuerySerializer.TermRoundTrip`, `StoredQueries.QueryRoundTrip`).
- A statement without a subject stays under the empty key of a graph
  (`SimpleResources.SimpleResourceGraph.AddOne`).

## Model

| member | source | states |
|---|---|---|
| `Terms.ValidByParts` | libnepomukcore/query/groupterm.cpp:40-51 | a term is valid exactly if every part of it, through groups, negations and optional terms, is a literal with a value, a resource with a URI, a type term with types, or any comparison, and no group is empty |
| `Optimizer.Optimize` | libnepomukcore/query/term.cpp:99-160 | the recursive optimizer with its list that grows in a loop equals the specification `Optimized` |
| `Optimizer.OptimizeSubs` | libnepomukcore/query/term.cpp:104-124 | the loop over subterms flattens groups of the same kind, drops invalid subterms and skips those already contained |
| `TermEquality.KeepsFirstOnes` | libnepomukcore/query/term.cpp:104-124 | an optimized group has the members of the optimized subterms in their order, and of equal ones the first |
| `Optimizer.OptimizedIsNormal` | libnepomukcore/query/term.cpp:99-160 | an optimized term is invalid or normal: no And in And, Or in Or, Negation in Negation or Optional in Optional, and every group has at least two pairwise different valid subterms |
| `Optimizer.NormalUnchanged` | libnepomukcore/query/term.cpp:99-160 | a normal term is left exactly as it is |
| `Optimizer.Idempotent` | libnepomukcore/query/term.cpp:99-160 | optimizing twice gives structurally what optimizing once gives |
| `TermEquality.RepeatBreaksSymmetry` | libnepomukcore/query/util.h:26-36 | every list with a repeated member equals another list that does not equal it |
| `TermEquality.SymmetricExactlyWithoutRepeats` | libnepomukcore/query/util.h:26-36 | a list of normal terms is compared symmetrically with every other exactly if it repeats no member |
| `TermEquality.NotSymmetricOnDuplicates` | libnepomukcore/query/groupterm.cpp:28-37 | so for every list with a repeated member there is a conjunction, and a disjunction, equal to its own in one direction only |
| `TermEquality.Reflexive` | libnepomukcore/query/groupterm.cpp:28-37 | every term equals itself |
| `TermEquality.Symmetric` | libnepomukcore/query/util.h:26-36 | on normal terms the one-directional list comparison is symmetric, by a pigeonhole on lists without duplicates |
| `TermEquality.Transitive` | libnepomukcore/query/term.cpp:384-387 | on normal terms equality is transitive |
| `TermEquality.EqualsSameMeaning` | libnepomukcore/query/term.cpp:118-121 | equal normal terms match the same resources in every store, which is what makes dropping duplicates sound |
| `TermEquality.EqualsExactly` | libnepomukcore/query/comparisonterm.cpp:308-322 | normal terms are equal exactly if one is the other with the members of groups, at any depth, in another order and other aggregate functions; everything else about a comparison counts, its sort weight and order included |
| `OptimizerSoundness.Sound` | libnepomukcore/query/term.h:191-196 | the optimized term matches exactly the resources the term matches, for all terms in which no operand of a comparison collapses harmfully, which their structure tells |
| `OptimizerSoundness.ValidExactly` | libnepomukcore/query/term.cpp:99-160 | for every term, the optimized term is valid exactly when the term says anything |
| `OptimizerSoundness.LeafExactly` | libnepomukcore/query/term.cpp:102-133 | the optimized term is a literal, or a resource, exactly when all members that say anything are that one, through nested groups and pairs of negations |
| `OptimizerSoundness.GroupSound` | libnepomukcore/query/term.cpp:102-133 | flattening, deduplication, dropping of invalid subterms and collapse of a one-element group keep the meaning of a conjunction or disjunction |
| `OptimizerSoundness.CollapseExactly` | libnepomukcore/query/term.cpp:153-157 | for every comparison whose operand collapses to a literal or resource, the optimized comparison has the same meaning exactly in the harmless cases: a resource or empty text under a regular expression, or a resource at the near end of an inverted type property; otherwise a store and a resource tell them apart |
| `EvenMore.Improve` | libnepomukcore/query/query.cpp:105-188 | the second pass with its loops equals the specification `Improved` |
| `EvenMore.MergeTypes` | libnepomukcore/query/query.cpp:112-143 | the loop under Or takes out the type terms and, if there are several, appends one with all their types |
| `EvenMore.NamedFirstPermutes` | libnepomukcore/query/query.cpp:148-169 | sorting conjuncts with variable names to the front is a permutation |
| `EvenMore.NamedFirstSorts` | libnepomukcore/query/query.cpp:148-169 | the named comparisons come first, the last of them foremost, and everything else follows in its order |
| `EvenMore.NormalIsFlat` | libnepomukcore/query/andterm_p.h:40-55 | in a normal term no conjunction is a direct subterm of a conjunction, which the search for a real pattern relies on |
| `EvenMore.ImprovedPreserved` | libnepomukcore/query/query.cpp:105-188 | on normal terms where no merged type term loses a type the second pass keeps validity, the meaning in every store and flatness, and turns no other term into a conjunction, negation or optional term |
| `EvenMore.MergingExactly` | libnepomukcore/query/query.cpp:126-132 | merging type terms keeps what they match in every store exactly if every type of theirs is one that some of them gives |
| `EvenMore.SingleTypesKept` | libnepomukcore/query/resourcetypeterm.cpp:104-110 | which is so for type terms with one type, the only ones the public interface makes |
| `OptimizerKeeps.OptimizedRegexp` | libnepomukcore/query/negationterm.cpp:34-39 | a term, or a negation, that comes down to a regular expression comparison has only such members, and at a resource where theirs meet one value the comparison does |
| `OptimizerKeeps.OptimizedApart` | libnepomukcore/query/term.cpp:104-124 | conjuncts that use different variable names still do when conjunctions are flattened |
| `OptimizerKeeps.SupportedKept` | libnepomukcore/query/term.cpp:99-160 | optimizing a supported term, with or without silent parts, gives a valid term that meets every requirement of the compiler |
| `OptimizerKeeps.SingleKept` | libnepomukcore/query/term.cpp:99-160 | where all regular expressions that can come to be negated in place meet one value, those of the optimized term do |
| `OptimizerKeeps.ComparisonStays` | libnepomukcore/query/term.cpp:99-124 | every comparison in a group has one in the optimized group with its property, comparator, name, sort weight, sort order and direction, about an operand like its own optimized |
| `OptimizerKeeps.ImprovedRuns` | libnepomukcore/query/query.cpp:105-188 | the second pass keeps those requirements and adds no variable name |
| `OptimizerKeeps.ImprovedSingle` | libnepomukcore/query/query.cpp:105-188 | and keeps that regular expressions negated in place meet one value |
| `FullText.TokensSpellText` | libnepomukcore/query/literalterm.cpp:107-173 | the tokens, keywords included, concatenate to the text without quotes and unquoted spaces |
| `FullText.NothingIsNegated` | libnepomukcore/query/literalterm.cpp:141-168 | no token is ever marked as negated |
| `FullText.NegationIsLost` | libnepomukcore/query/literalterm.cpp:131-170 | the scanner accepts what the text asks for, for every matching function, exactly when the text negates no token |
| `SearchText.LexSplits` | libnepomukcore/query/literalterm.cpp:107-129 | behind a closing quote and behind a space outside of quotes the text is read afresh |
| `SearchText.LexKeepsTogether` | libnepomukcore/query/literalterm.cpp:107-129 | between two such places there is one token with all visible characters, or none |
| `SearchText.WordsAreApart` | libnepomukcore/query/literalterm.cpp:107-129 | no token reaches across a space outside of quotes |
| `SearchText.PhraseIsOneToken` | libnepomukcore/query/literalterm.cpp:107-129 | a quoted phrase is one token, spaces included |
| `SearchText.WordIsOneToken` | libnepomukcore/query/literalterm.cpp:107-129 | so is a word without quotes and spaces |
| `SearchText.NeedsRegexExactly` | libnepomukcore/query/literalterm.cpp:147-160 | a token is searched by regular expression exactly if one of its parts has a wildcard among its first four characters |
| `SearchText.ReadTextIs` | libnepomukcore/query/literalterm.cpp:131-170 | the text asks for the tokens that are no keyword, in their order, and for any of them exactly if the last "and" or "or" is an "or" |
| `SearchText.NotIsLostExactly` | libnepomukcore/query/literalterm.cpp:131-170 | the scanner gives a text its intended meaning exactly if no word comes directly behind a "not" |
| `CompilerVars.CompileVars` | libnepomukcore/query/querybuilderdata_p.h:153-178 | a compiled term mentions its resource variable, variables of its own interval of the counter and names given inside it, and no others |
| `CompilerVars.CompileAllVars` | libnepomukcore/query/andterm.cpp:36-40 | so do the conjuncts of a group, each in its own part of the interval |
| `CompilerSubst.CompileSubst` | libnepomukcore/query/negationterm.cpp:55-72 | substituting a value for the resource variable of a compiled pattern is compiling about that value, which is what NOT EXISTS needs |
| `CompilerSat.SatReading` | libnepomukcore/query/literalterm.cpp:175-233 | the generated pattern accepts a value exactly when the tokens do (all, or any after `or`), whatever the scoring flag and the split between full text and regular expressions |
| `CompilerProof.ResourceCorrect` | libnepomukcore/query/resourceterm.cpp:42-76 | the resource filter, with its added type pattern where no real pattern is around, is satisfied by that resource only |
| `CompilerProof.TypeTermCorrect` | libnepomukcore/query/resourcetypeterm.cpp:42-66 | the single-type and the multi-type pattern are satisfied by resources with one of the types |
| `CompilerProof.ValueCorrect` | libnepomukcore/query/comparisonterm.cpp:159-210 | comparison with a value: satisfied exactly by resources with a value that compares |
| `CompilerProof.LabelCorrect` | libnepomukcore/query/comparisonterm.cpp:212-288 | comparison of a resource with a text: satisfied exactly by resources linked to one that has a fitting value |
| `CompilerProof.WildcardCorrect` | libnepomukcore/query/comparisonterm.cpp:142-157 | a comparison without a valid operand is satisfied by resources with the property, or in the inverse direction by its values |
| `CompilerProof.NestedCorrect` | libnepomukcore/query/comparisonterm.cpp:293-305 | a comparison with a nested term is satisfied by resources linked to a typed one that it finds |
| `CompilerProof.PlainCorrect` | libnepomukcore/query/literalterm.cpp:53-90 | a literal outside a comparison is found in the values of a resource or of a related one |
| `CompilerProof.NegationCorrect` | libnepomukcore/query/negationterm.cpp:42-72 | NOT EXISTS around the compiled subterm, with its added type pattern, is satisfied exactly by typed resources that the subterm does not find |
| `CompilerProof.NegatedRegexpPattern` | libnepomukcore/query/negationterm.cpp:34-39 | the `!` put in front of the first filter of a regular expression comparison asks for a value that does not match |
| `CompilerProof.NegatedRegexpCorrect` | libnepomukcore/query/negationterm.cpp:34-39 | around a compiled regular expression comparison with an operand that finds the typed resources with a value that fails |
| `CompilerProof.NegatedRegexpExactly` | libnepomukcore/query/negationterm.cpp:34-39 | at a resource that agrees with the negation, for every way to match regular expressions, exactly if there is one value of the property |
| `NegatedText.MarkHitsExactly` | libnepomukcore/query/negationterm.cpp:36-37 | inserting `!` seven characters behind the start of the first FILTER of a text puts it in front of a given test exactly if the word does not occur before that |
| `NegatedText.MarkNegatesExactly` | libnepomukcore/query/negationterm.cpp:34-39 | so the text of a regular expression comparison with an operand becomes the text of the pattern for its negation exactly if neither its property nor a name in it contains the word |
| `NegatedText.MarkMovesProperty` | libnepomukcore/query/negationterm.cpp:36-37 | without an operand, behind a variable of at most four characters, the mark turns the text into the text of the same triple pattern with another property |
| `CompilerProof.AndCorrect` | libnepomukcore/query/andterm.cpp:28-47 | a compiled conjunction is satisfied by what all conjuncts find |
| `CompilerProof.OrCorrect` | libnepomukcore/query/orterm.cpp:28-41 | a compiled disjunction is satisfied by what some branch finds |
| `CompilerProof.CompileCorrect` | libnepomukcore/query/comparisonterm.cpp:109-306 | compiler correctness for every compilable term, by induction: the pattern binds its resource and is satisfied exactly by the typed resources the term finds, which are those it matches but for regular expressions negated in place |
| `CompilerProof.CompiledQueryReturnsFound` | libnepomukcore/query/query.cpp:449-457 | the results bound to `?r` by the compiled term are exactly the typed resources it finds |
| `CompilerProof.FoundIsMatched` | libnepomukcore/query/negationterm.cpp:34-39 | a term finds a resource exactly if it matches it, wherever each regular expression negated in place meets one value |
| `CompilerProof.CompiledQueryReturnsMatches` | libnepomukcore/query/query.cpp:449-457 | such a resource is returned exactly if it is typed and the term matches it |
| `PatternParts.ScoredExactly` | libnepomukcore/query/literalterm.cpp:204-225 | a search text yields a score exactly if scoring is enabled, it has a token without an early wildcard, and it is not an alternative to a regular expression; the score is for all such tokens |
| `PatternParts.ConjunctIsLean` | libnepomukcore/query/andterm_p.h:40-55 | a resource or negation in a conjunction has its own pattern for a typed resource exactly if no conjunct is a comparison or type |
| `PatternParts.IgnoredExactly` | libnepomukcore/query/comparisonterm.cpp:284-287 | exactly invalid terms, empty texts and comparisons of a resource with a literal by order have no pattern; about one of them alone nothing is returned |
| `PatternParts.EmptyGroupsAskForNothing` | libnepomukcore/query/orterm.cpp:28-41 | a group without members asks for nothing, a disjunction like a conjunction |
| `NamedValues.SelectedValue` | libnepomukcore/query/comparisonterm.cpp:372-392 | each solution of a conjunction binds the name of a conjunct to a value that its resource has, in the direction the comparison follows |
| `NamedValues.OptionalValue` | libnepomukcore/query/optionalterm.cpp:26-32 | it binds the name of an optional conjunct behind one that binds the resource exactly if the resource has a value, and then to one of them |
| `QueryBuilder.QueryBuilderData.UniqueVarName` | libnepomukcore/query/querybuilderdata_p.h:153-178 | a new variable, the counter one higher, everything else unchanged |
| `QueryBuilder.GetMainVariableName` | libnepomukcore/query/comparisonterm.cpp:372-414 | the set name if there is one and no aggregate, otherwise a new variable |
| `QueryBuilder.PropertyToString` | libnepomukcore/query/comparisonterm.cpp:417-423 | the property, or a new variable for an invalid one |
| `QueryBuilder.ScanText` | libnepomukcore/query/literalterm.cpp:107-173 | the character loop with its five variables computes the specified reading of the text |
| `QueryBuilder.CreateContainsPattern` | libnepomukcore/query/literalterm.cpp:94-234 | scanning and assembling filters gives the specified pattern and counter |
| `QueryBuilder.ToSparqlGraphPattern` | libnepomukcore/query/comparisonterm.cpp:109-306 | compiling by methods equals the function that the proofs are about, and leaves depth and group stack as they were |
| `QueryBuilder.AndPattern` | libnepomukcore/query/andterm.cpp:28-47 | the loop over conjuncts between push and pop of the group stack |
| `QueryBuilder.OrPattern` | libnepomukcore/query/orterm.cpp:28-41 | the loop over branches joined by UNION |
| `QueryBuilder.NegationPattern` | libnepomukcore/query/negationterm.cpp:29-74 | shortcut, NOT EXISTS and type pattern as specified |
| `QueryBuilder.ComparisonPattern` | libnepomukcore/query/comparisonterm.cpp:109-306 | all branches of a comparison, between increase and decrease of the depth |
| `OptionalParts.OptionalKeepsResults` | libnepomukcore/query/optionalterm.cpp:26-32 | an OPTIONAL behind a pattern that always binds the result changes no result, if they share no other variable |
| `OptionalParts.ConjunctionReturns` | libnepomukcore/query/optionalterm.cpp:26-32 | a conjunction with optional conjuncts anywhere returns the typed resources that it finds and its front allows: the first conjunct that can bind the result decides, be it an optional one, unless nothing at all meets that |
| `OptionalParts.OptionalBehindIsHarmless` | libnepomukcore/query/optionalterm.cpp:26-32 | an optional conjunct anywhere behind one that binds the result changes nothing, whatever it asks for |
| `OptionalParts.OptionalInFrontRestricts` | libnepomukcore/query/optionalterm.cpp:26-32 | in front of all of them it restricts the result to its own matches as soon as it has any |
| `OptionalParts.OptionalsLast` | libnepomukcore/query/query.cpp:424-436 | a conjunction with any number of optional terms at its end returns what it finds |
| `Query.BuildTerm` | libnepomukcore/query/query.cpp:409-436 | the loop that adds the request properties builds the specified term |
| `Query.FolderFilterMeans` | libnepomukcore/query/query.cpp:74-102 | the folder filter, with its folders joined to regular expressions that the store reads as alternatives, matches resources with a URL in some included folder, if there are any, and in no excluded one |
| `Query.FolderFilterAdmits` | libnepomukcore/query/query.cpp:74-102 | where the store reads URLs literally, the filter admits what lies in an included folder, directly or, if it is recursive, anywhere below, and in or below no excluded one |
| `Query.AndTermsMeans` | libnepomukcore/query/term.cpp:402-420 | `&&` on any two terms asks for both, except that an operand that is neither a conjunction nor valid is dropped |
| `Query.OrTermsMeans` | libnepomukcore/query/term.cpp:423-441 | `||` on any two terms asks for one of them, except for such an operand |
| `Query.RequestsAdded` | libnepomukcore/query/query.cpp:424-436 | the built term has the conjuncts of the query's own term and file restriction, then the request properties in their order |
| `Query.OnlyOwnTermSorts` | libnepomukcore/query/query.cpp:409-436 | if the query's own term has no sort weight, no conjunct of the built term has one |
| `Query.BuiltTermMeans` | libnepomukcore/query/query.cpp:409-436 | the built term matches a resource exactly when the query's own term does, unless `&&` dropped it, it is a wanted file in a wanted folder, and it has a value for every mandatory request property |
| `QueryResults.BuiltArranges` | libnepomukcore/query/query.cpp:439 | after the first pass the conjuncts of the built term are compilable ones, then request properties, all variable names apart |
| `QueryResults.SortsOptionals` | libnepomukcore/query/query.cpp:148-169 | sorting conjuncts with variable names to the front leaves everything optional at the end |
| `QueryResults.QueryReturnsWhatItAsksFor` | libnepomukcore/query/query.cpp:409-457 | for every query about a supported term that asks for something, building, optimizing twice and compiling return a resource exactly if it is typed and the query asks for it, wherever regular expressions negated in place, excluded folders among them, meet one value |
| `RequestedValues.RequestedValues` | libnepomukcore/query/query.cpp:422-436 | every row of the results has, under the name reqProp1, reqProp2 and so on, a value of each request property exactly if its resource has one, and always for a mandatory one |
| `QueryModes.CountsWhatItReturns` | libnepomukcore/query/query.cpp:422-436 | ask and count queries, which leave optional request properties out, are about the same resources whenever the query itself asks for something |
| `QueryModes.OnlyOptionalReturns` | libnepomukcore/query/query.cpp:422-436 | otherwise it returns the typed resources with the first of its optional properties that any resource has, and nothing if there is none |
| `QueryModes.OwnTermIsLostExactly` | libnepomukcore/query/term.cpp:402-420 | the query itself loses an own term that the ask query keeps exactly if there is no file restriction, the term is neither a conjunction nor valid, and there are request properties, all optional |
| `QueryModes.ModesCanDiffer` | libnepomukcore/query/query.cpp:422-436 | for a disjunction with an invalid member and any one optional property there is a store in which the two modes are about different resources |
| `Dependencies.AnswerIsTrue` | server/servicemanager.cpp:88-97 | whenever the search answers, the answer says whether one service reaches the other |
| `Dependencies.DepthDecides` | server/servicemanager.cpp:88-97 | if there is no answer after one nested call per service and one more, there is none at any depth |
| `Dependencies.SearchEndsExactly` | server/servicemanager.cpp:88-97 | the search ends exactly if the part of the tree that it can enter, dependencies up to the first that leads to the target, has no cycle below its start |
| `Dependencies.FruitlessSearchEndsExactly` | server/servicemanager.cpp:88-97 | if there is nothing to be found it ends exactly if no service that is, or is needed by, its start is on a cycle |
| `Dependencies.SearchEndsWithoutCycle` | server/servicemanager.cpp:88-97 | if no such service is on a cycle it ends whatever is looked for |
| `Dependencies.EndlessSearch` | server/servicemanager.cpp:88-97 | a three-service tree on which the search never answers |
| `Dependencies.RankExists` | server/servicemanager.cpp:240-295 | a closed tree without cycles has a rank that falls along dependencies, so starting and stopping recursively ends |
| `DependencyCleanup.CleanedIsSound` | server/servicemanager.cpp:58-86 | the cleaned tree is closed under dependencies and has no cycle |
| `DependencyCleanup.CleanedIsMaximal` | server/servicemanager.cpp:58-86 | every closed part of the tree without cycles lies in the cleaned tree |
| `DependencyCleanup.DependencyTree.ServicesDependingOn` | server/servicemanager.cpp:116-126 | exactly the services that name the given one |
| `DependencyCleanup.DependencyTree.RemoveService` | server/servicemanager.cpp:100-114 | removes the service and everything that reaches it, in whatever order the hash is walked |
| `DependencyCleanup.EveryWalkEndsExactly` | server/servicemanager.cpp:58-86 | the cleanup ends in every order of the hash exactly if the scan of every service ends on the untouched tree |
| `DependencyCleanup.OrderDecides` | server/servicemanager.cpp:58-86 | a tree on which it ends in one order and not in another |
| `DependencyCleanup.AcyclicScansEnd` | server/servicemanager.cpp:58-86 | every scan ends if the tree has no cycle |
| `DependencyCleanup.DependencyTree.Cleanup` | server/servicemanager.cpp:58-86 | keeps exactly the services whose whole dependency closure exists and is free of cycles, in whatever order; ends exactly if the scans do, one after the other in the order walked |
| `DependencyCleanup.DependencyTree.CheckService` | server/servicemanager.cpp:67-84 | one round of the cleanup loop ends exactly if each search up to the first bad dependency does, and removes the service and its dependents if there is one |
| `Controllers.StartShape` | server/servicecontroller.cpp:181-220 | starting takes no initialized flag away, leaves no stopped controller, and makes a stopped one run |
| `Controllers.SlotsKeepWellKept` | server/servicecontroller.cpp:181-341 | every slot, except a report of success to a stopped controller, keeps: a stopped controller claims nothing, only a running one is attached |
| `Controllers.ReportsDecide` | server/servicecontroller.cpp:319-341 | over any reports the first success counts for good, and a failure is remembered exactly if no success came before it |
| `Controllers.ServiceController.StartService` | server/servicecontroller.cpp:181-220 | the new fields after start(), attaching or launching |
| `Controllers.ServiceController.StopService` | server/servicecontroller.cpp:223-247 | the new fields after stop() |
| `Controllers.ServiceController.SlotProcessFinished` | server/servicecontroller.cpp:262-267 | the process is down and all else reset |
| `Controllers.ServiceController.SlotServiceRegistered` | server/servicecontroller.cpp:270-280 | running; attached if no own process runs; with an interface if wanted |
| `Controllers.ServiceController.SlotServiceUnregistered` | server/servicecontroller.cpp:282-299 | started again if it was asked for, reset otherwise |
| `Controllers.ServiceController.SlotServiceInitialized` | server/servicecontroller.cpp:319-341 | the first success sets the flag and emits the signal |
| `Processes.RestartBudget` | server/processcontrol.cpp:62-109 | over any run, the number of launches is one plus the crashes under the restart policy before any other error, up to the budget |
| `Processes.ProcessControl.SlotFinished` | server/processcontrol.cpp:78-109 | a crash costs one of the budget and relaunches while it lasts, unless starting failed or the policy is to stop |
| `Processes.ProcessControl.SlotError` | server/processcontrol.cpp:62-76 | any error but a crash marks the process as unstartable |
| `ManagerMethods.Manager.BuildServiceMap` | server/servicemanager.cpp:182-227 | the tree is the cleaned tree of what the modules declare and every service in it has a new controller |
| `ManagerMethods.DeclaresExactly` | server/servicemanager.cpp:185-209 | the last module of a name depends on exactly what it names but itself, and on nepomukstorage if it names nothing |
| `StorageFirst.DependsOnStorage` | server/servicemanager.cpp:182-213 | in the built tree a service that names nothing depends on the storage alone, and it is left out if no storage is installed |
| `StorageFirst.StartsAfterStorage` | server/servicemanager.cpp:240-267 | over every run without late reports such a service is started only when the storage is initialized |
| `ManagerMethods.Manager.StartService` | server/servicemanager.cpp:240-267 | the recursive method equals the specification, for which the ordering and startup proofs are made; ends by rank |
| `ManagerMethods.Manager.StopService` | server/servicemanager.cpp:270-295 | likewise for stopping, up the reverse dependencies |
| `ManagerMethods.Manager.ServiceInitialized` | server/servicemanager.cpp:298-314 | a report and the loop over the pending services, walked in any order |
| `ManagerMethods.Manager.ServiceStopped` | server/servicemanager.cpp:317-346 | both loops after a service stopped, the first walked in any order |
| `ManagerMethods.Manager.ProcessFinished` | server/servicecontroller.cpp:262-267 | a finished process as one event of the manager |
| `ManagerMethods.Manager.StartAllServices` | server/servicemanager.cpp:365-377 | builds the map once and starts exactly the services that autostart |
| `ManagerMethods.Manager.StopAllServices` | server/servicemanager.cpp:380-388 | forgets pending services and stops every service |
| `ManagerMethods.Manager.StartNamed` | server/servicemanager.cpp:391-401 | starts the service of that name, or says there is none |
| `ManagerMethods.Manager.StopNamed` | server/servicemanager.cpp:404-411 | stops the service of that name, or says there is none |
| `ServiceOrdering.StartInOrder` | server/servicemanager.cpp:240-267 | one start, with all it starts recursively, calls start() only where every direct dependency is initialized |
| `ServiceOrdering.StopInOrder` | server/servicemanager.cpp:270-295 | one stop calls stop() only where no direct dependent runs |
| `ServiceOrdering.EventInOrder` | server/servicemanager.cpp:240-411 | every event but a late report keeps all calls in order |
| `ServiceOrdering.RunsAreInOrder` | server/servicemanager.cpp:240-411 | over all runs of all events in which no stopped service reports success: start() only after all direct dependencies are initialized and not reset since, stop() only when no direct dependent runs |
| `ServiceOrdering.LateReportBreaksOrder` | server/servicecontroller.cpp:319-341 | in any state, a stopped service that reports success lets a request for any dependent that waits for nothing else break the order |
| `ServiceOrdering.LateReportRun` | server/servicecontroller.cpp:270-341 | from the initial state: the service of somebody else comes, goes, and its report arrives after that |
| `ServiceOrdering.StartCancelsStop` | server/servicemanager.cpp:244 | after a start request the service no longer waits to be stopped, and no stop was queued |
| `ServiceOrdering.StopCancelsStart` | server/servicemanager.cpp:272 | after a stop request the service no longer waits to be started, and only services above it are queued |
| `ServiceOrdering.StartLeavesRunning` | server/servicemanager.cpp:240-267 | a start has no effect on any other service that runs: its controller and the stop it may wait for stay |
| `ServiceScope.StartStaysBelow` | server/servicemanager.cpp:240-267 | a start concerns only the service and what it depends on; every other controller and waiting entry is unchanged |
| `ServiceScope.StopStaysAbove` | server/servicemanager.cpp:270-295 | a stop likewise concerns only the service and what depends on it |
| `ServiceStartup.StartBoots` | server/servicemanager.cpp:240-267 | one start keeps: running services have initialized dependencies, pending ones wait with reason; and the service is running or pending after it |
| `ServiceStartup.PendingHasCause` | server/servicemanager.cpp:249-265 | every pending service reaches one that runs and has not reported |
| `ServiceStartup.StartupProgress` | server/servicemanager.cpp:298-314 | over every run of start requests and reports: each pending service waits for a dependency that runs and has not reported; when all have reported, nothing is pending and all requested services run with all they depend on initialized |
| `ServiceShutdown.StopHandles` | server/servicemanager.cpp:270-295 | one stop leaves each service told to stop, or waiting with a running dependent; only such services wait; what runs does not change |
| `ServiceShutdown.DependentsAreQueued` | server/servicemanager.cpp:277-287 | every running direct dependent of a stopped service is queued to be started again |
| `ServiceShutdown.FinishedHandles` | server/servicemanager.cpp:317-346 | after a service went down every waiting service is handled anew |
| `ServiceShutdown.FinishedIsFollowed` | server/servicemanager.cpp:338-345 | when a process ends, every running service that depends directly on it is told to stop, or waits for a dependent of its own, and is queued to be started again |
| `ServiceShutdown.GoneIsFollowed` | server/servicecontroller.cpp:282-299 | so is every running dependent of an attached service that leaves the bus |
| `ServiceShutdown.StopAllCancels` | server/servicemanager.cpp:380-388 | after stopAllServices no service that does not run is queued to be started |
| `ServiceShutdown.ShutdownStep` | server/servicemanager.cpp:270-346 | during shutdown each finished process takes one service off those that run, and nothing adds one, also when services register on the bus or report after they were told to stop |
| `ServiceShutdown.SomeoneIsStopping` | server/servicemanager.cpp:317-346 | as long as something runs, a running service has been told to stop |
| `ServiceShutdown.ShutdownProgress` | server/servicemanager.cpp:380-388 | after stopAllServices, over every run of stop requests, processes that end, told or not, and services that register late or report: each running service was told to stop or waits for a running dependent, and once all told services are down nothing runs and nothing waits |
| `ServiceLosses.LostServiceIsNotRestarted` | server/servicecontroller.cpp:282-299 | over every run: an attached service that was asked for and left the bus, while nothing it is or depends on waited to be stopped, stays as it was, attached and beyond the reach of start(), until it is told to stop |
| `ServiceLosses.RelaunchedServiceIsMute` | server/servicecontroller.cpp:262-317 | over every run: a service that crashed and was launched again runs without an interface, whatever is requested, until its process ends again |
| `ServiceLosses.FailedServiceIsStuck` | server/servicecontroller.cpp:181-267 | over every run: a service whose process could not be started does not run and is beyond the reach of start(), whatever is requested, unless somebody else provides it |
| `ServiceLosses.LostInterfaceIsMadeAgain` | server/servicecontroller.cpp:302-356 | an interface that failed is made again exactly if the service is attached or was asked for |
| `ServiceLosses.AttachedDependentIsWaitedForInVain` | server/servicecontroller.cpp:223-299 | a service that waits for an attached dependent to stop runs on and waits, though no dependent runs any more and the dependent leaving the bus changes nothing |
| `Server.DisabledWhenAllDown` | server/nepomukserver.cpp:182-196 | over all these runs the server reaches the disabled state exactly when the last service is down, provided one ran when it was switched off |
| `Server.EnabledMeansAllRun` | server/nepomukserver.cpp:198-207 | when the server calls itself enabled, every service that was asked for runs |
| `Server.EnabledWhenAllReported` | server/nepomukserver.cpp:198-207 | and it calls itself enabled with the first success of the last running service, over every run of start requests and reports |
| `Server.Server.EnableNepomuk` | server/nepomukserver.cpp:86-100 | switching on starts all services once, switched on already it does nothing |
| `Server.Server.DisableNepomuk` | server/nepomukserver.cpp:101-113 | switching off stops all services |
| `Server.Server.Quit` | server/nepomukserver.cpp:157-168 | leaves at once if disabled or if nothing runs, otherwise switches off first |
| `Server.Server.SlotServiceStopped` | server/nepomukserver.cpp:182-196 | disabled when switching off and nothing runs |
| `Server.Server.SlotServiceInitialized` | server/nepomukserver.cpp:198-207 | enabled when switching on and nothing is pending |
| `Texts.IntReadsBack` | libnepomukcore/query/queryserializer.cpp:369-370 | a number comes back from its text |
| `Texts.JoinSplits` | libnepomukcore/query/queryserializer.cpp:312-334 | names come back from their joined text |
| `Texts.BarsSplit` | libnepomukcore/query/queryserializer.cpp:312-324 | a text is split at every bar, and its two sides apart |
| `Xml.XmlReader.ReadNextStartElement` | libnepomukcore/query/queryserializer.cpp:210-214 | moves to the next start tag or to the end of the element |
| `Xml.XmlReader.ReadElementText` | libnepomukcore/query/queryserializer.cpp:187-198 | collects the text of an element and ends on its end tag |
| `QuerySerializer.EnumerationsReadBack` | libnepomukcore/query/comparisonterm.cpp:68-107 | comparators, aggregates and sort orders come back from their texts |
| `QuerySerializer.ReadsTerm` | libnepomukcore/query/queryserializer.cpp:183-309 | reading a written term, whatever follows it, gives what `ComesBack` says, and on success the reader stands on the matching end tag |
| `QuerySerializer.ComesBackExactly` | libnepomukcore/query/queryserializer.cpp:96-309 | the same term comes back exactly for the terms of `RoundTrips`: groups not empty if a flag is passed that is not set yet, subterms written, no Negation in Negation or Optional in Optional, single types, ascending order without a sort weight |
| `QuerySerializer.TermRoundTrip` | libnepomukcore/query/queryserializer.cpp:471-493 | Term::fromString after Term::toString gives the same term exactly for the terms that come back without a flag, and for the invalid one |
| `StoredQueries.FlagsReadBack` | libnepomukcore/query/queryserializer.cpp:312-334 | every set of query flags comes back |
| `StoredQueries.QueryComesBack` | libnepomukcore/query/queryserializer.cpp:352-468 | everything of a query but its term comes back unchanged, request properties and folders included, for any order of the folder hash |
| `StoredQueries.QueryRoundTrip` | libnepomukcore/query/queryserializer.cpp:352-468 | saving and loading gives the same query exactly when its term comes back, is missing or is an empty group |
| `LoadedQueries.SavingKeepsExactly` | libnepomukcore/query/queryserializer.cpp:352-468 | from whatever document a query is loaded, it is a proper one, and saving and loading it again gives the same query exactly if no comparison has a descending order without a sort weight |
| `LoadedQueries.LeftOutIsDefault` | libnepomukcore/query/queryserializer.cpp:255-345 | an attribute that a document leaves out has the value of a new comparison or query; an included folder is recursive unless it says otherwise, and a folder that does not say it is included is excluded |
| `LoadedQueries.UnknownIsDefault` | libnepomukcore/query/comparisonterm.cpp:84-107 | so has a text that names no comparator, aggregate or order |
| `SerializerMethods.DoSerializeTerm` | libnepomukcore/query/queryserializer.cpp:96-180 | the recursive writer appends exactly the specified tokens |
| `SerializerMethods.DoParseTerm` | libnepomukcore/query/queryserializer.cpp:183-309 | the recursive reader, with or without a flag, gives the specified term and flag and stands where specified |
| `SerializerMethods.SerializeTerm` | libnepomukcore/query/queryserializer.cpp:471-482 | the writer of single terms |
| `SerializerMethods.ParseTermText` | libnepomukcore/query/queryserializer.cpp:485-493 | the reader of single terms, which passes no flag |
| `SerializerMethods.SerializeQuery` | libnepomukcore/query/queryserializer.cpp:352-408 | the writer of whole queries |
| `SerializerMethods.ParseQueryDocument` | libnepomukcore/query/queryserializer.cpp:411-468 | the loop that reads whole queries |
| `SimpleResources.BlankNameDecodes` | libnepomukcore/datamanagement/simpleresource.cpp:38-52 | a decoder gives the counter back from its name |
| `SimpleResources.BlankNamesDiffer` | libnepomukcore/datamanagement/simpleresource.cpp:38-52 | different counters have different names |
| `SimpleResources.CreateBlankUri` | libnepomukcore/datamanagement/simpleresource.cpp:38-52 | the do-while loop ends and spells the name |
| `SimpleResources.AddPropertiesMerges` | libnepomukcore/datamanagement/simpleresource.cpp:206-211 | adding pairs in any order adds each missing pair once |
| `SimpleResources.NodesReadBack` | libnepomukcore/datamanagement/simpleresourcegraph.cpp:218-225 | a value comes back from its node, blank nodes included |
| `SimpleResources.StatementsExactly` | libnepomukcore/datamanagement/simpleresource.cpp:103-128 | the statements of a graph are exactly its pairs, with blank nodes for all subjects and targets whose URI starts with "_:" and named ones for no others |
| `SimpleResources.RebuiltFromStatements` | libnepomukcore/datamanagement/simpleresourcegraph.cpp:261-282 | rebuilding from the statements in any order gives the graph without empty resources and repeated pairs |
| `SimpleResources.StatedIsAll` | libnepomukcore/datamanagement/simpleresourcegraph.cpp:261-282 | that is the graph itself exactly when it has neither |
| `SimpleResources.UnionIsUnion` | libnepomukcore/datamanagement/simpleresourcegraph.cpp:228-258 | `+=` has the pairs of both graphs, resource by resource, repeats none if neither graph did, and keeps graphs keyed and clean |
| `SimpleResources.SimpleResourceGraph.AddGraph` | libnepomukcore/datamanagement/simpleresourcegraph.cpp:228-258 | the loop of `+=` computes that union in any order, and changes nothing for the graph itself |
| `SimpleResources.SimpleResourceGraph.Add` | libnepomukcore/datamanagement/simpleresourcegraph.cpp:109-115 | adds one pair to one resource unless it is there, and nothing for an empty URI |
| `SimpleResources.SimpleResourceGraph.AddOne` | libnepomukcore/datamanagement/simpleresourcegraph.cpp:261-267 | adds one statement; one without a subject goes under the empty key, to a resource with a new blank name |
| `SimpleResources.SimpleResourceGraph.Insert` | libnepomukcore/datamanagement/simpleresourcegraph.cpp:87-90 | stores a resource under its URI |

## Left out

- OptimizerSoundness.Sound: not for terms in which an operand of a comparison collapses harmfully; `CollapseExactly` shows that such a comparison by itself changes its meaning, not that every term around it does.
- OptionalParts.OptionalInFrontRestricts: with other optional conjuncts around it `ConjunctionReturns` says what is returned.
- QueryResults.QueryReturnsWhatItAsksFor: for own terms of `Supported`, which leaves out optional subterms and what the compiler leaves out. The store is taken to read the joined patterns of the query's own folders as alternatives. At other resources `FinalReturnsFound` says what is returned.
- RequestedValues.RequestedValues: for queries whose own term gives none of these names to a comparison.
- Query.FolderFilterAdmits: for URLs without characters that mean something in a regular expression, which the source does not escape.
- ServiceShutdown.FinishedIsFollowed: where the server started all services itself, and for `GoneIsFollowed` all others; an attached dependent is told to stop, too, but may not have a process to end.
- DependencyCleanup.DependencyTree.Cleanup: a search that does not end is modelled as giving up after one nested call per service and one more, at which depth `DepthDecides` and `SearchEndsExactly` hold; nothing is said of the tree then.
- ServiceOrdering.LateReportBreaksOrder: for dependents that name the service once and whose other dependencies, if they do not run, do not lead to it; otherwise the service may be started, and its flag be taken away, before the flag is looked at.
- ServiceLosses.LostServiceIsNotRestarted: for services none of whose own processes ends meanwhile, which would reset them, and where nothing they are or depend on waits to be stopped when they leave the bus, since then they are told to stop at that moment.
- ServiceShutdown.ShutdownProgress: for services the server started itself, none of which crashes or is started meanwhile, or reports success for the first time while another one is queued to be started again. With an attached one it fails: `AttachedDependentIsWaitedForInVain`.
- QueryBuilder.GetMainVariableName: does not record the variable among the custom and order variables, which are left out below.
- CompilerProof.CompileCorrect: assumes that every subject has a type, as `negationterm.cpp:51-53` does, that names given by the user are used once and are none of the generated ones, and that an inverted comparison that follows a link has a property, whose values are typed. OPTIONAL terms are left to `OptionalParts`. Not for the negation of a regular expression comparison without an operand: the source inserts its `!` at position 6 of a text without FILTER, which changes the property (`NegatedText.MarkMovesProperty`) or, if that is not known or the variable is longer, leaves no triple pattern.
- CompilerProof.CompiledQueryReturnsFound: likewise.
- QueryBuilder.NegationPattern: likewise; the pattern is a tree, in which that insertion has no place.
- ServiceStartup.StartupProgress: for runs without stops and crashes; a relaunched service does not report.
- ManagerMethods.Manager.StartService: the controllers are kept by value in the map, so that two names share a controller or a controller changes behind the manager's back is not modelled. `Controllers.ServiceController` is the object.
- The text of a SPARQL query: escaping, formatting, prefixes, the result filter, limit and offset, select lists, scoring expressions. Patterns are trees; a property or a name that contains the word FILTER misleads the negation in place as `NegatedText.MarkNegatesExactly` says, which the trees do not show.
- The parameter `additionalFilters` of the pattern methods, which every caller leaves empty.
- Custom, order and aggregate variables, sort weights in the compiled query, and the variable sharing that is commented out in `querybuilderdata_p.h`.
- The `HandleInverseProperties` flag.
- The handling of URLs: folders are given as texts.
- Aggregate functions are not compared by `==`, in the model as in the source.
- Soprano and Qt: a literal of a given type comes back from its text, `KUrl` leaves a URL as it is, XML text comes back from its escapes.
- Duplicate service names among the installed modules are resolved as the hash does, by the later one.
- Configuration (autostart, run-once), the D-Bus objects, timers and killing of processes.
- The query and date parsers, `mergeLiteralTerms`, `Resource` and `ResourceManager`, the cleaning jobs, rcgen, the user interfaces and the migration to Baloo.

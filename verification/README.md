# Proofs about the Dynare preprocessor

Dynare's preprocessor compiles a dynamic economic model into code for a solver. This project models its four parts that
carry a guarantee and proves the guarantee: the feedback vertex set of a block, the transformations of the expression
nodes, the byte code back end, and the index arithmetic of derivatives with the Ramsey first-order conditions.

`dafny verify dfyconfig.toml` checks everything.

## How it is modelled

*Expressions* are trees (`Expr`) with a value `Value(m, e, p, t)` at a path `p` of the variables and a date `t`. The
value is an exact real, or absent where the expression is undefined. The mathematical functions are a parameter `m`:
only the laws a proof needs are asked of it (`Laws`, `CalculusLaws`, `InverseLaws`). `Refines(v, w)` says that `w` is `v`
wherever `v` is defined. An operation is *dropped* (`Drops`) when its constructor returns a constant without regard to whether
the operands are defined; the lead and lag passes record in ghost lists what was dropped. A call of `exit()` is the outcome `Exit`. That trees may stand for the shared nodes of the program is
itself proved, for the class `DataTrees.DataTree` that keeps the node tables: the constructors on nodes compute exactly
the constructors on trees, for the order of the node indices.

*State* that the program updates in place is a class or a loop here: the adjacency lists of the graph, the colours of
the cycle search, the substitution table of a lead or lag pass, the derivative caches, the table of temporary terms,
the code file with its rewritten jumps, the derivation IDs, the byte stream and its loader. Methods are proved against
functions, and the lemmas are about those functions.

*The machine* that runs the code is the one of `mex/sources/bytecode/Interpreter.cc`: a stack of reals, temporary slots,
residuals, the vector U, the entries of the Jacobian, and relative jumps.

| file | subject |
|---|---|
| Sets, Digraphs, FeedbackTraces, AdjacencyLists, CycleSearch, MinimumFeedbackSet, ReorderVariables | feedback vertex set and recursive order |
| Expressions, Constructors, DataTrees | nodes, values, simplifying constructors, sharing |
| TimeShifts, AffineLeads, AuxiliarySystems, LeadLagPasses, LeadLagElimination | shifts, leads and lags |
| Calculus, Derivatives, DerivativeClosure, Slopes, DerivativeValues | symbolic derivatives and what they are the derivative of |
| ShiftedDerivatives, RamseyPolicy, RamseyConditions | first-order conditions |
| Bytecode, ExpressionCode, TemporaryTerms, BlockCode, ModelCode, RecursiveOrders, DerivativeCode, CodeFormat, BlockHeaders | byte code |
| Normalization, NormalizationLimits | equation normalization |
| JacobianColumns, SparseDerivatives | derivation IDs, Jacobian columns, sparse second and third derivatives |

## Findings

Where the code does not do what it is meant to do. Each is a lemma, and where the code is still right for some inputs the
exact condition is proved with it.

- Rule 2 of the feedback set can cost a vertex (`CliqueRuleCanLose`): the comparison of the neighbours starts at the second
  one (preprocessor/MinimumFeedbackSet.cc:202-217). It costs none if and only if some smallest feedback set avoids the vertex
  (`ContractExact`). The neighbours are the clique that the rule asks for if and only if the first one listed is joined both
  ways with every other (`CliqueTestExact`).
- The recursive variables of a block, once sorted, are regrouped by dynamic type (preprocessor/ModelTree.cc:639-668). That
  keeps predecessors first if and only if no edge leads to a smaller type (`RegroupingKeeps`). Both callers ensure it: one
  forces dynamic variables into the feedback set (preprocessor/ModelTree.cc:583-594), the other has static models.
- `x + (-y)` and `(-y) + x` are different nodes (`PlusCommutes`), although the terms of a sum are meant to be sorted
  (preprocessor/DataTree.cc:82-108).
- Rebuilding an undefined expression may define it (`ShiftMayDefine`), because a constructor returns 0 or 1 for some
  operands without regard to whether they are defined (preprocessor/DataTree.cc:82-123, 141-248). A result has exactly the
  value of the operation if and only if the operation is not dropped in that way or is defined (`AddOperatorValue`). A shifted
  expression has a value where the original has none exactly where what the shift dropped is undefined (`ShiftValue`), and a
  solution of the equations without leads and lags is one of the model, with all auxiliary definitions, if and only if it
  defines what the passes dropped (`ChainBackward`, `ChainEquivalent`).
- The derivative of atanh multiplies by `1 - x^2` where it should divide (`AtanhDerivative`;
  preprocessor/ExprNode.cc:1378-1381).
- Normalization loses or adds solutions for sqrt (`SquareRootLost`, `SquareRootSolved`; preprocessor/ExprNode.cc:1974-1977),
  for a variable in the base of a power (`BaseLost`), of which the negative roots are lost (`NegativeRootsLost`;
  preprocessor/ExprNode.cc:3251-3255), and in the exponent (`ExponentLost`, `ExponentSolved`;
  preprocessor/ExprNode.cc:3256-3265), for max, min and the comparisons (`NothingUndone`;
  preprocessor/ExprNode.cc:3292-3339), and for a function of an argument that it had given up, because the flag 2 is read as
  true (`SecondAppearanceForgotten`; preprocessor/ExprNode.cc:1914-1920). It ends the program below the trigonometric and
  hyperbolic functions (`NotInvertedEnds`; preprocessor/ExprNode.cc:3058-3075).
- The machine has no abs and no sign (mex/sources/bytecode/Interpreter.cc:939-1085), so that the code runs exactly when the
  expression needs neither (`CodeCorrect`).
- One instruction is stored with the opcode of another one and is read back as that one (`RoundTrip`;
  preprocessor/CodeInterpreter.hh:959-969).
- A block header is written with counts that are not the lengths of its vectors. With two exogenous columns for one
  variable (preprocessor/DynamicModel.cc:864-898), or two exogenous variables at one lag of a block
  (preprocessor/DynamicModel.cc:1134-1163), the writer reads behind the vector (preprocessor/CodeInterpreter.hh:1538-1549;
  `WholeModelComesBack`, `BlockComesBack`); of a block with recursive variables only a prefix is stored.
- The exogenous columns of the Jacobian are assigned without looking at the type (preprocessor/DynamicModel.cc:1004-1025),
  unlike the count in the header (preprocessor/DynamicModel.cc:864-878): two variables share a column exactly where the last
  exogenous variable of a lag meets a deterministic one of the same number (`ExoColumnsExact`), and of two derivatives with
  one place the later one is kept (`ExoCorrect`).
- Two derivation IDs share a column exactly when an exogenous symbol appears with two leads or lags (`ColumnsInjective`;
  preprocessor/DynamicModel.cc:3640-3657). The sparse matrices are right for models where none does, and where different
  derivatives share their columns no matrix is (`SharedColumnsNotExact`).

## Model

| member | source | states |
|---|---|---|
| Digraphs.ContractReduces | preprocessor/MinimumFeedbackSet.cc:222-271 | rule 1: contracting a loopless vertex whose shortcuts share an endpoint turns feedback sets of the rest into feedback sets of the whole, and every feedback set of the whole is matched by one of the rest that is not larger |
| Digraphs.ContractExact | preprocessor/MinimumFeedbackSet.cc:39-57 | contracting a vertex without a loop keeps the size of a smallest feedback set if and only if some smallest feedback set avoids the vertex |
| Digraphs.LoopReduces | preprocessor/MinimumFeedbackSet.cc:302-336 | rule 3: storing and deleting a looping vertex loses nothing; it is in every feedback set |
| Digraphs.CutReduces | preprocessor/MinimumFeedbackSet.cc:376-402 | the max-degree cut costs at most one vertex |
| Digraphs.CliqueReduces | preprocessor/MinimumFeedbackSet.cc:273-300 | rule 2: contracting a vertex joined both ways with all its neighbours costs at most the neighbours outside a clique |
| Digraphs.ReducesMinimum | preprocessor/MinimumFeedbackSet.cc:222-336 | over a lossless reduction the size of a smallest feedback set before is the size after plus the number of vertices stored |
| FeedbackTraces.StepReduces | preprocessor/MinimumFeedbackSet.cc:222-402 | every step of the algorithm that is allowed on a graph turns feedback sets of the rest into feedback sets of the whole, and loses at most its cost: 1 for a cut and for a contraction by rule 2 of a vertex of which the neighbours are not a clique, 0 otherwise |
| FeedbackTraces.RunBound | preprocessor/MinimumFeedbackSet.cc:338-408 | a run of allowed steps that leaves no vertex has stored a feedback set; it exceeds a smallest one by at most the cost, and is a smallest one at no cost |
| AdjacencyLists.Digraph.Suppress | preprocessor/MinimumFeedbackSet.cc:26-37 | deletes exactly the vertex at a position, its edges and no other edge; the other positions close up |
| AdjacencyLists.Digraph.Eliminate | preprocessor/MinimumFeedbackSet.cc:39-57 | joins every predecessor to every successor and deletes the vertex: the result is the contraction of the old graph |
| CycleSearch.LassoCycle | preprocessor/MinimumFeedbackSet.cc:59-97 | the reversed circuit stack, a walk of which the last vertex lies on the walk or on the path that leads to it, contains a cycle |
| CycleSearch.Search.Visit | preprocessor/MinimumFeedbackSet.cc:59-80 | the white, gray and black invariant: on failure the vertex is finished and finished vertices only lead to finished ones; on success the circuit returns to the gray path |
| CycleSearch.HasCycle | preprocessor/MinimumFeedbackSet.cc:82-97 | true if and only if the graph has a directed cycle, self-loops included; the circuit is then the tail of a walk from a root that returns to itself |
| MinimumFeedbackSet.EliminateLowDegreeStep | preprocessor/MinimumFeedbackSet.cc:222-271 | a pass is a run of rule 1 steps, one for each vertex that is gone, and loses nothing; when it does nothing, no vertex is eligible |
| MinimumFeedbackSet.BelongsToClique | preprocessor/MinimumFeedbackSet.cc:183-220 | without parallel edges, accepts a vertex if and only if its two lists are equal, it does not loop, and its neighbours, the first one listed left out, are a clique of any size |
| MinimumFeedbackSet.CliqueRuleCanLose | preprocessor/MinimumFeedbackSet.cc:183-220 | a graph on three vertices where the test accepts and the smallest feedback set grows from one vertex to two |
| MinimumFeedbackSet.CliqueTestExact | preprocessor/MinimumFeedbackSet.cc:202-217 | where the test accepts, the neighbours are a clique if and only if the first one listed is joined both ways with every other |
| MinimumFeedbackSet.EliminateCliqueStep | preprocessor/MinimumFeedbackSet.cc:273-300 | a pass is a run of rule 2 steps, one for each vertex that is gone; it loses at most one vertex for each, and only where the neighbours were not a clique; when it does nothing, no vertex passes the test |
| MinimumFeedbackSet.SuppressLoopsStep | preprocessor/MinimumFeedbackSet.cc:302-336 | a pass is a run of rule 3 steps: it stores exactly the vertices it deletes and loses nothing; when it does nothing, no vertex loops |
| MinimumFeedbackSet.ReduceGraph | preprocessor/MinimumFeedbackSet.cc:345-366 | the three rules, repeated until none does anything, are a run without cuts that ends with a graph that is empty or on which no rule applies: no vertex loops, each has two predecessors and two successors listed, and, without parallel edges, no vertex with equal lists has a clique of neighbours, even with the first one left out |
| MinimumFeedbackSet.IrreducibleCycle | preprocessor/MinimumFeedbackSet.cc:367-402 | an irreducible graph that is not empty has a cycle, so that the cut is needed |
| MinimumFeedbackSet.MaxDegreePosition | preprocessor/MinimumFeedbackSet.cc:376-399 | finds the first position with the largest degree |
| MinimumFeedbackSet.MinimalSetOfFeedbackVertices | preprocessor/MinimumFeedbackSet.cc:338-408 | for every graph it ends, and the working graph is then empty; the result is what a run of allowed steps has stored, which, without parallel edges, cuts only where neither rule 1 nor rule 3 applies, and then a vertex of the largest degree; every cycle of the original graph meets it; it exceeds a smallest feedback set by at most the cost of the run and is a smallest one if the cost is 0 |
| ReorderVariables.SuppressPositions | preprocessor/MinimumFeedbackSet.cc:424-430 | deleting positions from the largest to the smallest deletes exactly the intended vertices |
| ReorderVariables.ReorderRecursiveVariables | preprocessor/MinimumFeedbackSet.cc:419-456 | the output has no repetition and lists predecessors first; it is complete, and the error message absent, if and only if the set hits every cycle |
| ReorderVariables.RegroupingKeeps | preprocessor/ModelTree.cc:639-668 | regrouping the sorted variables by dynamic type keeps predecessors first if and only if no edge leads to a smaller type |
| ReorderVariables.Regroup | preprocessor/ModelTree.cc:639-668 | the loops over the types and the variables list the variables type by type, in their order |
| ReorderVariables.FeedbackAndOrder | preprocessor/ModelTree.cc:628-668 | composed: every vertex outside the computed feedback set is listed exactly once; predecessors come first if and only if no edge leads to a smaller type, and always if dynamic variables loop |
| Constructors.AddFunctionValue | preprocessor/DataTree.cc:125-434 | the simplified node has exactly the value of the function, undefined included; the program ends only where it is defined nowhere |
| Constructors.AddOperatorValue | preprocessor/DataTree.cc:82-248 | for every operator constructor (sorting, negation, 0 and 1, equal arguments, constant folding) the simplified node has the value of the operation wherever it is defined; it has exactly that value if and only if the operands are not dropped or the operation is defined; the program ends only where it is defined nowhere |
| DataTrees.UnfoldInjective | preprocessor/DataTree.hh:289-334 | two nodes never stand for the same expression |
| DataTrees.NodeBuilt | preprocessor/DataTree.hh:262-334 | every node of the tree is what the constructor of its operator makes of its arguments |
| DataTrees.TimesCommutes | preprocessor/DataTree.cc:141-168 | the product of two expressions does not depend on their order |
| DataTrees.SameProduct | preprocessor/DataTree.cc:141-168 | two products of the same nodes, asked for in either order and with any calls between, are the same node |
| DataTrees.PlusCommutes | preprocessor/DataTree.cc:82-108 | for all nodes: the sums in either order are the same node if and only if the terms are the same, one of them is 0, none is a negation, or both are constants other than NaN and its negation |
| DataTrees.DataTree.AddNode | preprocessor/ExprNode.cc:37-44 | a new node gets the next index and enters the table of its kind; no two nodes share a key, arguments keep smaller indices, and nothing else changes |
| DataTrees.DataTree.AddPossiblyNegativeConstant | preprocessor/DataTree.hh:262-287 | gives the node of the constant, a negative one as the negation of a constant |
| DataTrees.DataTree.AddUnaryOp | preprocessor/DataTree.hh:289-313 | gives the shared or folded node of the operation and adds nothing if it exists |
| DataTrees.DataTree.AddBinaryOp | preprocessor/DataTree.hh:315-334 | the same for two arguments |
| DataTrees.DataTree.AddPlus | preprocessor/DataTree.cc:82-108 | on nodes computes the constructor on expressions, for every order that agrees with the node indices |
| DataTrees.DataTree.AddTimes | preprocessor/DataTree.cc:141-168 | the same for products |
| DataTrees.DataTree.AddOperator | preprocessor/ExprNode.cc:3357-3395 | the same for every operator; the tables are unchanged when the program ends |
| DataTrees.DataTree.AddFunction | preprocessor/ExprNode.cc:2053-2111 | the same for every function |
| DataTrees.DataTree.CloneDynamic | preprocessor/ExprNode.cc:3405-3411 | the copy of an expression from another tree, over all constructor calls it makes, has the value of the original wherever that is defined, which is exactly where the copy and all dropped operations are defined |
| TimeShifts.ShiftValue | preprocessor/ExprNode.cc:1038-1053 | an expression with leads and lags decreased by n has at date t the value of the original at t - n wherever that is defined; the original is defined exactly where the result and every operation that the rebuild dropped are |
| TimeShifts.ShiftFits | preprocessor/ExprNode.cc:3443-3449 | the shift lowers the largest lead and raises the largest lag by n, and adds no symbol |
| TimeShifts.ShiftMayDefine | preprocessor/DataTree.cc:82-123 | an undefined quotient that a rebuild turns into the node 1: its operation is dropped |
| AffineLeads.AffineMean | preprocessor/ExprNode.cc:2171-2186 | what the treatment of nonlinear nodes is for: where variables stand affinely, the mean of the expression over two continuations is its value at the mean of these variables |
| AffineLeads.OperatorAffine | preprocessor/ExprNode.cc:3357-3395 | the constructors, with all their simplifications, keep affine occurrences affine |
| AffineLeads.ShiftAffine | preprocessor/ExprNode.cc:3443-3449 | so does decreasing leads and lags |
| AuxiliarySystems.EnterOk | preprocessor/ExprNode.cc:187-222 | a new auxiliary symbol keeps the substitution table true: every entry equals its key at every date, undefined included, on every path that solves the new equations and defines what was dropped |
| AuxiliarySystems.ExtendGood | preprocessor/ExprNode.cc:187-257 | a path that defines the equations, extended by the values of the auxiliary symbols, solves all new equations and defines what was dropped |
| AuxiliarySystems.SameOperator | preprocessor/ExprNode.cc:3357-3395 | an operator rebuilt on substituted arguments has exactly the value of the original on every path that solves the new equations and defines what was dropped, this operation included if it is dropped |
| LeadLagPasses.LeadLagPass.AuxiliaryFor | preprocessor/ExprNode.cc:203-217 | an auxiliary variable found in the table, also for another expression, or newly defined, has exactly the value of its key at every date |
| LeadLagPasses.LeadLagPass.CreateLeadAuxiliary | preprocessor/ExprNode.cc:187-257 | the chain of auxiliary variables for an expression of any lead replaces it by one at lead 1; it is made only for a variable or, in a stochastic model, a node that the conditional expectation cannot be moved into |
| LeadLagPasses.LeadLagPass.SubstituteLead | preprocessor/ExprNode.cc:2171-2210 | the substituted expression has exactly the value of the original on all paths that solve the new equations and define what was dropped, and has no lead left to eliminate; in a stochastic model the auxiliary variables, of earlier passes too, stand affinely in it and in all new equations; in a deterministic model the new equations only delay variables; without a lead to eliminate no auxiliary variable is made |
| LeadLagPasses.LeadLagPass.TameOperator | preprocessor/ExprNode.cc:3459-3502 | the operators whose arguments are substituted separately keep the auxiliary variables affine: sums, differences, equations, and products and quotients where the other factor or the divisor has no lead of either kind |
| LeadLagPasses.LeadLagPass.CreateLagAuxiliary | preprocessor/ExprNode.cc:1086-1135 | the chain of auxiliary variables for a lag of any size replaces it by one at lag 1 |
| LeadLagPasses.LeadLagPass.SubstituteLag | preprocessor/ExprNode.cc:1159-1208 | the same as for leads, where only variables are replaced: no lead grows, and what is affine stays so |
| LeadLagElimination.AuxiliaryForced | preprocessor/DynamicModel.cc:3916-3982 | the new equations force the auxiliary symbols: the extension is unique |
| LeadLagElimination.PassPreserves | preprocessor/DynamicModel.cc:3916-3982 | every path solves the equations if and only if it has an extension to the auxiliary symbols that solves the new system and defines what the pass dropped, and only one; along paths that define the equations every solution of the new system defines that, and some extension defines the new system |
| LeadLagElimination.EliminateLeads | preprocessor/DynamicModel.cc:3916-3982 | one lead pass preserves meaning and leaves no lead to eliminate, in the auxiliary equations either; equations keep their places, one is added for each auxiliary variable; in a stochastic model all auxiliary variables, those of an earlier pass included, stand affinely; it ends the program only on equations defined nowhere |
| LeadLagElimination.EliminateLags | preprocessor/DynamicModel.cc:3916-3982 | the same for a lag pass, which brings back no lead, adds only equations that delay a variable, and keeps marked leads affine |
| LeadLagElimination.EliminateStochastic | preprocessor/ModFile.cc:281-292 | after the four passes every equation, auxiliary ones included, has endogenous leads and lags of at most 1 and no exogenous one; every auxiliary variable at a lead stands affinely, so that no nonlinear function is applied to a variable that stands for an expectation; one equation is added for each auxiliary variable; every path solves the model if and only if it extends to a solution of the result that defines what the passes dropped, and the extension is unique; the program ends only on a model defined along no path |
| LeadLagElimination.EliminateDeterministic | preprocessor/ModFile.cc:293-298 | the same for the two passes of a deterministic model: endogenous leads and lags of at most 1, and the equations added only delay variables |
| LeadLagElimination.ChainForward | preprocessor/ModFile.cc:281-298 | every solution of the model extends, through all passes, to a solution of the equations of all stages |
| LeadLagElimination.ChainBackward | preprocessor/ModFile.cc:281-298 | a solution of the final equations solves the model and all stages if and only if it defines what the passes dropped; no condition is left if they dropped nothing |
| LeadLagElimination.ChainEquivalent | preprocessor/ModFile.cc:281-298 | from the model to the final equations, for every path: it solves the model if and only if it extends to a solution of the final equations that defines what was dropped, and the extension is unique |
| LeadLagElimination.ChainUnique | preprocessor/ModFile.cc:281-298 | the auxiliary symbols of all passes are determined by the other symbols |
| Calculus.DerivativeUnique | preprocessor/ExprNode.cc:1322-1331 | at most one number satisfies the definition of the derivative (value at h = value + slope h + a remainder bounded by a multiple of h^2) |
| Slopes.SlopeSound | preprocessor/ExprNode.cc:1322-1451 | the slope of an expression, from the rules of calculus, is the derivative of its value, proved from that definition |
| Slopes.PowerDerivRule | preprocessor/ExprNode.cc:2493-2495 | the derivative of order k of an integer power has that of order k + 1 as its derivative by the definition, for a base of any sign |
| Derivatives.SparseOrExit | preprocessor/ExprNode.cc:1305-1320 | outside the set of non-null derivatives the recursion gives the node 0 or ends the program, for any expression |
| Derivatives.Sparse | preprocessor/ExprNode.cc:50-71 | outside the set of non-null derivatives the plain recursion gives the node 0 on every expression of the tree |
| Derivatives.DerivativeCache.PrepareForDerivation | preprocessor/ExprNode.cc:2408-2426 | the non-null set of a node becomes known, and is the one of its expression |
| Derivatives.DerivativeCache.GetDerivative | preprocessor/ExprNode.cc:50-71 | with any cache content and in any order of calls, returns what the plain recursion returns |
| DerivativeClosure.DerivativeKeeps | preprocessor/ExprNode.cc:1322-1458 | a derivative has every property of the expression that constants have and the constructors keep |
| DerivativeClosure.DerivativeReads | preprocessor/ExprNode.cc:1322-1458 | a derivative reads no variable that the expression does not read |
| DerivativeValues.UnaryDerivative | preprocessor/ExprNode.cc:1322-1451 | the composed node of a function has the value of the chain rule, despite all simplifications; for erf under the law that its derivative is 2 / (sqrt(pi) exp(x^2)) with the decimal pi of the program |
| DerivativeValues.BinaryDerivative | preprocessor/ExprNode.cc:2437-2559 | the composed node of an operator has the value of its rule: quotients, powers with constant and variable exponent, derivatives of powers (for an integer exponent that does not read the variable also where the base is negative), max, min |
| DerivativeValues.AtanhDerivative | preprocessor/ExprNode.cc:1378-1381 | the node has the value of the derivative if and only if the inner derivative is 0 or the factor is 1 or -1 |
| DerivativeValues.ErfNode | preprocessor/ExprNode.cc:1435-1447 | the node z of erf satisfies z (s w) = 2 d, where w is the value of exp(x^2), s that of sqrt of the decimal pi, and d the inner derivative |
| DerivativeValues.AbsDerivative | preprocessor/ExprNode.cc:1385-1387 | for abs the node is the inner derivative with the sign of the argument, and 0 where that is 0 |
| DerivativeValues.ExtremumDerivative | preprocessor/ExprNode.cc:2525-2536 | for max and min the node is the derivative of the argument that is the result, and of the second one where they are equal |
| DerivativeValues.RaisedPowerDeriv | preprocessor/ExprNode.cc:2493-2495 | the derivative of order k of a power whose exponent has derivative 0 is derived into that of order k + 1, for a base of any sign |
| DerivativeValues.DerivativeIsSlope | preprocessor/ExprNode.cc:1453-1458 | where the expression has a slope, differentiating it does not end the program and the node has the value of the slope |
| DerivativeValues.DerivativeCorrect | preprocessor/ExprNode.cc:2561-2567 | the value of the derivative node is the derivative of the value of the expression with respect to the variable at that lead or lag |
| DerivativeValues.EquationDerivative | preprocessor/ExprNode.cc:2537-2538 | the derivative of an equation is that of left minus right |
| ShiftedDerivatives.ShiftBuilt | preprocessor/ExprNode.cc:3443-3449 | shifting stays within the expressions that the constructors build |
| ShiftedDerivatives.DerivativeBuilt | preprocessor/ExprNode.cc:1322-1458 | the derivative of a node of the data tree is one |
| ShiftedDerivatives.ShiftSlope | preprocessor/ExprNode.cc:1038-1053 | the derivative of the shifted expression with respect to y(k - n) at date t is that of the original with respect to y(k) at t - n |
| RamseyPolicy.ComputeLagrangian | preprocessor/DynamicModel.cc:3459-3476 | the loops over equations and lags build the Lagrangian stacked in time |
| RamseyPolicy.LagrangianSlope | preprocessor/DynamicModel.cc:3459-3476 | the slope of the Lagrangian with respect to y is the Euler sum |
| RamseyPolicy.EulerEquation | preprocessor/DynamicModel.cc:3436-3494 | the equation for y has at date t the value of the sum over equations and leads k of beta^(-k) times the derivative of the equation with respect to y(k) at date t - k |
| RamseyPolicy.EulerTerm | preprocessor/DynamicModel.cc:3436-3494 | the derivatives in that sum are those of the symbolic derivatives, and of the values, of the equations |
| RamseyPolicy.NoOtherLead | preprocessor/DynamicModel.cc:3443-3451 | a lead at which a variable does not appear contributes 0 |
| RamseyPolicy.AllLeads | preprocessor/DynamicModel.cc:3459-3476 | the Euler sum is the same for all bounds that hold the leads of the variable: it extends over all leads |
| RamseyConditions.MaxLeadLag | preprocessor/DynamicModel.cc:3436-3451 | finds the largest lead and lag of the endogenous variables of the equations, attained unless 0 |
| RamseyConditions.ComputeRamseyPolicyFOCs | preprocessor/DynamicModel.cc:3418-3494 | multiplies the constraints by their multipliers, appends the objective, bounds the leads and lags by those of the variables of these equations, and derives their Lagrangian through the shared cache for the variables of the Lagrangian, in the order of their derivation IDs |
| RamseyConditions.ConditionsAreEuler | preprocessor/DynamicModel.cc:3418-3494 | the result of the transformation holds at a date if and only if the Euler equations of all endogenous variables do, over all leads of the problem; for a variable without a condition the Euler equation always holds |
| Bytecode.CodeFile.Rewrite | preprocessor/DynamicModel.cc:969-979 | overwriting an instruction changes only it, and advances the instruction number all the same |
| Bytecode.RunStraight | mex/sources/bytecode/Interpreter.cc:1412-1428 | a stretch without jumps runs inside a program as it does alone: it ends just behind itself, or stops where it would |
| ExpressionCode.CodeCorrect | preprocessor/ExprNode.cc:1872-1903 | when the slots hold their terms, the code of an expression runs if and only if it is defined and needs no operator that the machine lacks; it then has pushed the value and changed nothing else |
| ExpressionCode.Compile | preprocessor/ExprNode.cc:2798-2831 | appends exactly that code, and counts its instructions |
| TemporaryTerms.TermTables.ComputeTemporaryTerms | preprocessor/ExprNode.cc:2704-2731 | keeps the tables consistent: every visited node has a first occurrence with its children visited before, a term is stored only at its first occurrence, the choice of terms is economical, and exactly this visit and the uses as an argument of newly met nodes are counted |
| TemporaryTerms.CostOfCode | preprocessor/ExprNode.cc:2610-2674 | the cost that decides is that of the operators in the code that is written with the terms |
| TemporaryTerms.TermTables.Declare | preprocessor/ExprNode.cc:1598-1606 | makes exactly this node a temporary term |
| TemporaryTerms.TermTables.MeetAgain | preprocessor/ExprNode.cc:2723-2731 | a further visit counts and keeps the choice economical |
| TemporaryTerms.TermTables.ComputeTemporaryTermsOrdered | preprocessor/DynamicModel.cc:135-163 | after all blocks every equation and every node below has been visited no later than its place, and every node met occurs at its place; the count of a node is how often it is an equation, a derivative or an argument of a node met; a node that is no equation is a term only if it is met more than once and its count times its cost without terms exceeds the limit, and is none only if it is met once or its count times its cost with the terms does not |
| ModelCode.ComputeTemporaryTermsMapping | preprocessor/DynamicModel.cc:196-204 | distinct slots below the number of temporary terms, in the order of the node indices |
| ModelCode.OnePlace | preprocessor/DynamicModel.cc:135-163 | a term is stored at an equation if and only if its first occurrence is there: exactly one place |
| ModelCode.PlanOf | preprocessor/DynamicModel.cc:135-163 | the chosen terms cover every block: whatever the code of an equation loads is stored in an earlier block, or earlier in this one |
| ModelCode.DefinedBeforeUse | preprocessor/DynamicModel.cc:1166-1262 | in the code of the equations of all blocks, with the chosen terms, every FLDT k is preceded by FSTPT k |
| ModelCode.WriteModel | preprocessor/DynamicModel.cc:135-204 | composed: the terms are chosen and numbered and the equations of all blocks written, without any assumption on the choice; the choice is economical for the counted uses, and every FLDT k of the result is preceded by FSTPT k |
| ModelCode.WriteBlockEquations | preprocessor/DynamicModel.cc:1166-1262 | the loop over the equations of a block writes exactly the code that the theorems are about |
| BlockCode.EvaluateCorrect | preprocessor/DynamicModel.cc:1219-1226 | the code of an evaluated equation runs if and only if its right side has a value and needs no missing operator; it then has stored that value in the variable |
| BlockCode.SolveCorrect | preprocessor/DynamicModel.cc:1246-1259 | the code of a solved equation runs if and only if both sides have values and need no missing operator; it then has stored left minus right in its residual |
| BlockCode.BlockCorrect | preprocessor/DynamicModel.cc:1166-1262 | the code of a block runs to its end if and only if every term and every side has a value where it is computed and needs no missing operator; then all evaluated equations hold on the final path, all residuals are left minus right there, all slots hold their terms, and the stack is what it was |
| ModelCode.BlockOfModelCorrect | preprocessor/DynamicModel.cc:1166-1262 | the same for each block of a model with the terms that the preprocessor chooses |
| ModelCode.ModelCorrect | preprocessor/DynamicModel.cc:1166-1262 | the equations of all blocks, run one after another from any state, reach the end if and only if all that they compute has a value and needs no missing operator; every block finds in the slots what the blocks before it have left; at the end all evaluated equations hold if the blocks are triangular |
| RecursiveOrders.OrderIsRecursive | preprocessor/ModelTree.cc:628-668 | a list of the recursive variables with predecessors first is the order that the code of a block relies on: no variable is read before its equation, nor by a temporary term stored until then, of this block or an earlier one |
| RecursiveOrders.PlainDerivativesRead | preprocessor/DynamicModel.cc:147-160 | the derivatives of a block, visited for temporary terms at its last equation, read only what its equations read |
| DerivativeCode.UpdateCorrect | preprocessor/DynamicModel.cc:915-966 | the section runs to its end if and only if every derivative has a value and needs no missing operator; U then holds every derivative, and for every equation its residual minus the derivatives times the variables |
| DerivativeCode.ColumnExact | preprocessor/DynamicModel.cc:981-1003 | two derivatives get the same column if and only if they are for the same variable and lag |
| DerivativeCode.JacobianCorrect | preprocessor/DynamicModel.cc:981-1003 | the section runs to its end if and only if every derivative has a value and needs no missing operator; every derivative is then stored at its row and column, and nothing else has changed |
| DerivativeCode.ExoCorrect | preprocessor/DynamicModel.cc:1004-1025 | the exogenous part runs to its end if and only if every derivative has a value and needs no missing operator; every place then holds the derivative stored there last, and nothing else has changed |
| DerivativeCode.EvaluationCorrect | preprocessor/DynamicModel.cc:981-1025 | both parts of the section one after the other; every exogenous derivative is at its place where no exogenous variable meets a deterministic one of the same number |
| DerivativeCode.SectionsCorrect | preprocessor/DynamicModel.cc:909-1034 | FJMPIFEVAL lands on the first instruction of the Jacobian and FJMP just behind it; a run stops exactly where the section itself does |
| DerivativeCode.SectionsOfModel | preprocessor/DynamicModel.cc:909-1034 | an evaluation stores the Jacobian with its exogenous part and nothing else, any other run U and nothing else, and both go on behind the sections, if and only if every derivative has a value and needs no missing operator |
| DerivativeCode.WriteSections | preprocessor/DynamicModel.cc:909-1034 | writes the update section and the Jacobian with its exogenous part; the jumps patched afterwards have the right length, although each rewriting advances the instruction number |
| CodeFormat.BytesBack | preprocessor/CodeInterpreter.hh:255-368 | a number that fits its field is read back from its bytes |
| CodeFormat.TagBack | preprocessor/CodeInterpreter.hh:1224-1599 | an instruction of which no count exceeds its vector is read back with exactly its bytes, including the length-prefixed and type-dependent layouts; of a vector as many elements as its count says |
| CodeFormat.WrongCode | preprocessor/CodeInterpreter.hh:959-969 | the instruction that stores the opcode of another one is read back as that one |
| CodeFormat.RestoredSame | preprocessor/CodeInterpreter.hh:1516-1599 | what is read back is what was written if and only if names hold no NUL, the counts of a block header are the lengths of its vectors, and the fields not stored for its type have their default |
| CodeFormat.RoundTrip | preprocessor/CodeInterpreter.hh:1629-1978 | a program ending in FEND is written to its end and read back, in order, if and only if no block header has a count larger than its vector and the instruction with the foreign opcode is not used |
| CodeFormat.PositionsExact | preprocessor/CodeInterpreter.hh:1871-1884 | the positions are those of the block headers and no others |
| CodeFormat.PositionsAscend | preprocessor/CodeInterpreter.hh:1871-1884 | they ascend |
| CodeFormat.PositionsRestored | preprocessor/CodeInterpreter.hh:1871-1884 | they are the same in the program written and in the one read |
| CodeFormat.CodeStream.Write | preprocessor/CodeInterpreter.hh:1516-1550 | appends exactly the bytes of the instruction and counts it, if and only if no count exceeds its vector; otherwise the writer would read behind the vector |
| CodeFormat.CodeLoad.GetOpCode | preprocessor/CodeInterpreter.hh:1629-1978 | the loop over the bytes computes the decoding, the positions of the blocks, appended to those of earlier files, and their number |
| BlockHeaders.CountExoColumns | preprocessor/DynamicModel.cc:855-878 | counts the different exogenous variables and lags of the derivatives |
| BlockHeaders.WholeModelComesBack | preprocessor/DynamicModel.cc:880-898 | the header of a whole model is written without reading behind a vector if and only if there are at most as many exogenous columns as exogenous variables, and comes back as it was if and only if there are as many |
| BlockHeaders.TwoLagsReadBehind | preprocessor/DynamicModel.cc:855-898 | one exogenous variable at two lags is enough to read behind the vector |
| BlockHeaders.CountBlockColumns | preprocessor/DynamicModel.cc:3329-3352 | counts every exogenous variable of a block under every lag |
| BlockHeaders.BlockComesBack | preprocessor/DynamicModel.cc:1132-1163 | the header of a block is written without reading behind a vector if and only if no lag has two exogenous variables, and comes back as it was if and only if moreover the block has no recursive variables |
| BlockHeaders.AssignExoColumns | preprocessor/DynamicModel.cc:1004-1025 | the loop gives every exogenous derivative of the Jacobian section the number of changes of variable or lag before it |
| BlockHeaders.ExoColumnsExact | preprocessor/DynamicModel.cc:1004-1025 | equal columns exactly for equal variable, type and lag, if and only if nowhere the last exogenous variable of a lag meets a deterministic one of the same number |
| Normalization.ApplyOperations | preprocessor/ExprNode.cc:3128-3172 | applies the recorded operations from the last to the first |
| Normalization.FreeRebuilt | preprocessor/ExprNode.cc:1911-1937 | an expression without the variable is rebuilt with its value |
| Normalization.Collected | preprocessor/ExprNode.cc:3104-3290 | the list recorded on the way to the variable undoes the expression: it has the value v if and only if undoing v gives the value of the variable |
| Normalization.ApplyExact | preprocessor/ExprNode.cc:3051-3102 | applying the list to a node gives the value of undoing its value, and ends the program only where that is undefined |
| Normalization.NormalizationCorrect | preprocessor/ExprNode.cc:3104-3290 | when y occurs once below +, -, *, /, negation, exp, log and log10, the result is y = g without y in g, and it holds if and only if the equation does |
| NormalizationLimits.SquareRootLost | preprocessor/ExprNode.cc:1974-1977 | sqrt(e) = v becomes e = 2^v; equivalent if and only if e has both values, the square of v >= 0 and 2^v, or neither |
| NormalizationLimits.SquareRootSolved | preprocessor/ExprNode.cc:1974-1977 | for e of value a and v >= 0: equivalent if and only if a is neither v^2 nor 2^v, or the two are equal; for v < 0 if and only if a is not 2^v |
| NormalizationLimits.BaseLost | preprocessor/ExprNode.cc:3251-3255 | e^f = v, for any f without the variable, of value k, becomes e = v^(1/f); equivalent if and only if both e^k = v and e = v^(1/k), or neither |
| NormalizationLimits.NegativeRootsLost | preprocessor/ExprNode.cc:3251-3255 | where v^(1/k) is the root that is not negative: equivalent if and only if e is not negative or is no root of v |
| NormalizationLimits.ExponentLost | preprocessor/ExprNode.cc:3256-3265 | z^e = v, for any z and v without the variable, z of value b, becomes e = log(log(z) / v); equivalent if and only if both b^e = v and exp(e) = log(b) / v, or neither |
| NormalizationLimits.ExponentSolved | preprocessor/ExprNode.cc:3256-3265 | for e of value a and log(b) = l other than 0: equivalent if and only if a is neither log(v) / l nor log(l / v), or the two are equal |
| NormalizationLimits.ExponentLostAtOne | preprocessor/ExprNode.cc:3256-3265 | at z = v = 1 every e solves the equation and the result does not hold |
| NormalizationLimits.SecondAppearanceForgotten | preprocessor/ExprNode.cc:1914-1920 | f(e) = v with an e that is given up becomes f(inner) = v for the part of e that was collected before; equivalent if and only if e is inner, or neither f(e) nor f(inner) is v |
| NormalizationLimits.BothArguments | preprocessor/ExprNode.cc:3121-3126 | an operator with the variable in both arguments is given up, and the part remembered is the variable itself |
| NormalizationLimits.ArgumentRemembered | preprocessor/ExprNode.cc:1978-1985 | abs, sign and erf of an invertible expression are given up, and the part remembered is the argument |
| NormalizationLimits.NothingUndone | preprocessor/ExprNode.cc:3292-3339 | max, min and the comparisons of e with z, equal to v, become e = v; equivalent if and only if the operator returns e, or v is neither what it returns nor e |
| NormalizationLimits.MaximumLost | preprocessor/ExprNode.cc:3292-3296 | for max: equivalent if and only if z is not above e, or v is neither of them |
| NormalizationLimits.NotInvertedEnds | preprocessor/ExprNode.cc:3058-3075 | below trigonometric and hyperbolic functions the program ends |
| JacobianColumns.TypeSpecificInjective | preprocessor/SymbolTable.cc:80-114 | symbols of one type have different numbers, in the order of the symbols, below the number of symbols of the type |
| JacobianColumns.DerivationTables.ComputeDerivIDs | preprocessor/DynamicModel.cc:3519-3583 | a symbol at a lead or lag gets a derivation ID if and only if it appears in an equation, whatever its type; the IDs have no gap and are in the order of the variables; the two tables are inverse |
| JacobianColumns.Rank | preprocessor/DynamicModel.cc:3669-3673 | numbers the sorted variables by rank |
| JacobianColumns.DerivationTables.ComputeDynJacobianCols | preprocessor/DynamicModel.cc:3627-3678 | endogenous variables get the columns 0 to n - 1 in the order of (lag, symbol), each exactly once; exogenous ones the columns behind by symbol |
| JacobianColumns.ColumnBelow | preprocessor/DynamicModel.cc:3675-3677 | all columns are below the final number of columns |
| JacobianColumns.ColumnsInjective | preprocessor/DynamicModel.cc:3640-3657 | different variables get different columns if and only if no exogenous symbol appears with two leads or lags |
| SparseDerivatives.ComputeJacobian | preprocessor/ModelTree.cc:999-1013 | stores exactly the first derivatives of the equations that are not 0, each once; it ends the program exactly when a derivative does |
| SparseDerivatives.NextDerivatives | preprocessor/ModelTree.cc:1015-1079 | through the shared cache, stores exactly the derivatives of the stored ones that are not 0, for descending indices, each once, and counts the elements of the full matrix; it ends the program exactly when a derivative does |
| SparseDerivatives.ComputingPass | preprocessor/DynamicModel.cc:2953-2995 | composed: derivation IDs, columns, and the derivatives of order 1, 2 and 3 of the equations; what is derived for are exactly the endogenous and exogenous variables, deterministic ones included, that appear in an equation, and the derivatives with respect to any other are 0; it ends the program exactly when a derivative of an equation, of a first derivative other than 0, or of a second one does |
| SparseDerivatives.SecondDerivatives | preprocessor/ModelTree.cc:1015-1044 | for two indices in descending order the derivative of the derivative is stored, unless one of the two is 0, and nothing else |
| SparseDerivatives.ThirdDerivatives | preprocessor/ModelTree.cc:1046-1079 | the same for three indices |
| SparseDerivatives.Code3Injective | preprocessor/DynamicModel.cc:2149-2149 | the column number determines the three indices |
| SparseDerivatives.WriteHessian | preprocessor/DynamicModel.cc:2086-2128 | the lines hold every stored derivative at both places and nothing else, no place twice, and as many lines as counted |
| SparseDerivatives.CountOrders | preprocessor/DynamicModel.cc:2161-2168 | the set of the other columns has 0, 2 or 5 elements, as counted in advance |
| SparseDerivatives.WriteThirdDerivatives | preprocessor/DynamicModel.cc:2130-2188 | the same for all orders of three indices |
| SparseDerivatives.ElementExact | preprocessor/DynamicModel.cc:2086-2188 | an element of an equation at indices in any order is in the lines if and only if a derivative is stored for the descending indices, with its value |
| SparseDerivatives.WriteMatrices | preprocessor/DynamicModel.cc:2086-2188 | from the derivatives of a model to both matrices: exact whenever no exogenous symbol appears with two leads or lags |
| SparseDerivatives.SharedColumnsNotExact | preprocessor/DynamicModel.cc:2086-2188 | when two different derivatives of an equation share their columns no lines are exact |

## Left out

- File, stream and MATLAB, C or LaTeX text generation, options, configuration and statements: printing.
- Floating point: values are exact reals, a constant is one node per real number (the program keeps one per spelling), and NaN and Inf count as undefined; `NEAR_ZERO` is taken as 0.
- 0^0: it counts as undefined, because the constructors give 1 for a constant exponent and 0 for a constant base.
- External functions, STEADY_STATE, EXPECTATION, trends, model-local variables, normcdf and normpdf.
- Name clashes of auxiliary variables in the symbol table, which end the program.
- The order of node creation outside `DataTrees`: the tree-level constructors take any order of the nodes, so that their lemmas hold for every one; the order of temporary terms is the order of a list of the nodes.
- Index and pointer mechanics of the graph library: a pass is a scan that may skip a vertex after a deletion, and the outer loop runs it again.
- ChainEquivalent: that the final equations define what was dropped follows pass by pass from a model defined along the path (`PassPreserves`), but is a condition on the solution over several passes.
- BaseLost, ExponentLost: at the points where the result is 0 to a negative power, or the logarithm and the other side are both 0, the result depends on the nodes and not on the values only.
- MinimalSetOfFeedbackVertices: no overall minimality is claimed beyond the stated bound, and rule 2 does not have it.
- DerivativeCorrect: erf is covered under the law that its derivative has the decimal of pi that the program writes, which for the exact pi holds only approximately; a parameter with a lead or lag is not covered, because leads and lags of parameters are ignored in values and not in derivation.
- EulerEquation: the discount factor is positive and the equations are differentiable along the path.
- NormalizationCorrect: expressions outside the stated fragment are covered only by the lemmas that show how it fails.
- BlockCorrect: the recursive equations are in the order that `OrderIsRecursive` establishes. The decomposition into blocks by strongly connected components, which makes the model block triangular, and the matching of variables with equations are not modelled.
- ModelCode.WriteModel: the code of equations only, without the block headers and derivatives between them; derivatives with respect to exogenous variables are compiled with terms that are not chosen with them in view.
- UpdateCorrect: the sections of a single block (FLDZ, FCUML, chain-rule derivatives, the derivatives with respect to variables of other blocks) are not modelled; `SectionsCorrect` covers the jumps around any two sections.
- CodeFormat.CodeLoad.GetOpCode: reading behind the end of the bytes is the result None; opening the file is left out.
- The machine addresses a variable by its symbol and lag instead of by type and number within the type.
- ComputeDerivIDs: the bookkeeping of the largest leads and lags of the model is left out; it is called on empty tables, as the program arranges by copying the model.
- ModelCode.ModelCorrect: the solver works on each block between its runs, and at other dates; what it does is not modelled.
- ElementExact: the mixed derivatives are those for descending indices; that the derivatives in the other order are equal is not part of the statement.

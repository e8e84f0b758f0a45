# SwCreator: layout import, document saving, designer canvas, and the ping/pong client

This project models four parts of the repository and proves what they promise.

**Layout import** (`Segments`, `FairShrink`, `Tracks`, `UiReader`, `Measure`, `BoxLayout`, `BoxRoom`, `BoxAgreement`,
`GridLayout`, `GridAgreement`, `Placement`, `GridRun`, `ChildRects`, `ImportTree`, `ImportRun`, `TreeRoom`, `TreeFit`,
`UiLookups`, `MeasureFacts`, `BoxShape`, `GridShape`, `Samples`). The importer of Qt `.ui` files measures a tree of widgets and layouts bottom-up, places the children of each layout in integer pixels and flattens
nested layouts. Each routine that works in place is a method over arrays, proved equal to a specification
function; the geometric facts are lemmas about those functions. Pixels are unbounded integers, and C++
integer division is written out where an operand may be negative.

**Saving and loading** (`Text`, `Xml`, `XmlParser`, `XmlPrinter`, `XmlRoundTrip`, `CanvasText`, `Spacers`,
`XmlStream`, `DocForest`, `DocContents`, `DocCells`, `DocWriter`, `SpacerReload`). The XML reader of the repository, the printer of the canvas document, the
rewriting of spacers and the forest of document widgets. A stream object appends exactly the printed text.

**The designer canvas** (`WidgetTree`, `CanvasMoves`, `FormCanvas`, `FreshNames`, `DropIndex`, `CommandStack`). Parent
links are a map of ids that are never used twice; a log records every deletion. Deleting an object that
the list, the selection or the drop target still refers to is excluded by the precondition of the single
deletion step, so the proofs show at each step that they have let go before.

**The ping/pong client** (`PingPong`). A fiber, its one-shot timers and the pong handler, as steps on one
cooperative loop. Events are a scheduler turn, a firing timer and a delivered pong; an arbitrary sequence
of events covers loss, delay, repetition and reordering.

Where code and expectation differ, the model follows the code:

- The guard of a move looks at the container, but the widget lands in the content or page of that
  container, and setting a parent has no guard of its own. A page that is itself a design widget (as in an
  imported file) can be moved onto its own tab widget and becomes its own parent
  (`PageOntoItsTabWidget`); two moves can close a cycle without that (`PageThenItsFrame`).
  `LandedForest` gives the exact condition, and `CarefulRunKeeps` the runs for which it always holds.
- Removing a design widget leaves a tab widget, stacked widget or scroll area that showed it still
  referring to it, and a later move into that container does not look whether its content is alive
  (`RemovedPageStaysReferred`). `RemovalKeepsContents` and `ClearingKeepsContents` say exactly when no
  container is left like that. Where the code would work on the freed widget, the model records a link to it.
- Preparing a document for loading is not idempotent when it holds a spacer: the designer widget comes out
  in one-line form first and in indented form the second time (`LoneSpacerNotIdempotent`). It is stable
  from the second time on, and its tree from the first.
- A child that measures negative is counted as flexible, but only a length of zero receives a share, so the
  box is not filled (`NegativeFallsShort`, with the exact condition in `SpreadExact`).
- A child that measures nothing still takes a pixel, which its box does not measure, so in exactly its measured
  size a box can push its last child out (`EmptyChildrenOverflow`). `SpreadHolds` gives the exact room of a box,
  `AxisInside` that of a grid, and `MeasuredRoom` and `MeasureSuffices` say when the measured size is enough.
- A flexible widget in a horizontal box gets its share whatever it measures, so a layout in it can get less than
  it measures (`TextEditSqueezed`, with the exact condition in `FlexibleGetsMeasure`).
- A layout nested in a grid cell can get less than it measures although the grid gets all it measures
  (`NestedSqueezed`, with the exact conditions in `NestedGetsMeasure` and `EnoughInAnyRoom`).
- Where segments are shrunk, a pixel more room can cost a segment a pixel (`PixelLost`); `MoreRoomCostsLittle`
  bounds the loss.
- Below a widget with a grid layout the document follows the cells by row and column, not the widget tree, and a
  child without a cell is not written (`CelllessIsLost`); `GridsLoseOnlyCellless` and `GridsKeepTreeOrder` give the
  exact conditions.
- A document widget below an object that is not a widget is in the document set but is not written
  (`BelowPlainIsLost`). The designer and the loader only ever give widgets as parents, so they do not build
  such trees (`WidgetParentsLoseNothing`).

## Model

| member | source | states |
|---|---|---|
| Segments.TwoPassesSuffice | SwCreator/serialization/SwCreatorQtUiImporter.cpp:475-510 | For any sizes, minimums and excess the outer loop needs at most two passes, one when the excess covers the whole slack, and no pass takes nothing, so the exit for a stalled pass is never used |
| Segments.FirstPassRemainder | SwCreator/serialization/SwCreatorQtUiImporter.cpp:487-505 | When the excess is below the slack, what a first pass leaves over is smaller than the number of segments that still hold slack |
| Segments.OnlyPass | SwCreator/serialization/SwCreatorQtUiImporter.cpp:475-510 | When the excess is at least the slack, one pass uses it up |
| Segments.LastPass | SwCreator/serialization/SwCreatorQtUiImporter.cpp:487-505 | An excess no larger than the number of segments holding slack is gone after one pass |
| Segments.PassProgress | SwCreator/serialization/SwCreatorQtUiImporter.cpp:502-505 | A pass over segments with slack always takes at least one pixel |
| Segments.ShrunkExact | SwCreator/serialization/SwCreatorQtUiImporter.cpp:475-510 | Shrinking removes exactly the excess or, if smaller, all the slack; nothing grows, nothing drops below the smaller of size and minimum, and a segment at or below its minimum keeps its size |
| Segments.FittedExact | SwCreator/serialization/SwCreatorQtUiImporter.cpp:459-511 | With sizes that are not negative the final total is max(target, sum of min(size, minimum)) when the total exceeds a positive target, and unchanged otherwise |
| FairShrink.ShrunkProportional | SwCreator/serialization/SwCreatorQtUiImporter.cpp:475-510 | Over all passes, for any excess up to the slack, what a segment gives differs from its exact share by less than a pixel for each other segment with slack |
| FairShrink.LessExcessCostsLittle | SwCreator/serialization/SwCreatorQtUiImporter.cpp:475-510 | A smaller excess can leave a segment smaller, but by no more than twice the number of segments with slack less three |
| FairShrink.MoreRoomCostsLittle | SwCreator/serialization/SwCreatorQtUiImporter.cpp:459-511 | The same for the whole routine: more room costs a segment no more than that |
| FairShrink.PixelLost | SwCreator/serialization/SwCreatorQtUiImporter.cpp:459-511 | Concrete sizes 3, 5, 5 with minimums 1: an excess of 5 leaves the first segment 2, an excess of 4 only 1 |
| Segments.ShrinkSegmentsToFit | SwCreator/serialization/SwCreatorQtUiImporter.cpp:459-511 | The in-place routine over the listed positions computes exactly `Fitted` on them and leaves every other entry alone |
| Segments.ShrinkPass | SwCreator/serialization/SwCreatorQtUiImporter.cpp:487-501 | The inner loop with its early stop takes exactly what the pass specification takes and reports it |
| Segments.ShrinkOne | SwCreator/serialization/SwCreatorQtUiImporter.cpp:491-500 | One segment gives up its clamped proportional share |
| Segments.MeasureTotal | SwCreator/serialization/SwCreatorQtUiImporter.cpp:466-470 | The total counts negative sizes as zero |
| Segments.MeasureSlack | SwCreator/serialization/SwCreatorQtUiImporter.cpp:476-483 | The total slack over the listed positions |
| UiReader.CollectFromLayout | SwCreator/serialization/SwCreatorQtUiImporter.cpp:567-601 | The nested loops with their early exit return the first recognised child of each item, in order, with its cell and visibility |
| UiReader.CollectItem | SwCreator/serialization/SwCreatorQtUiImporter.cpp:574-598 | Within one item the first widget, layout or spacer is taken and ends the search |
| UiReader.ReadSizeConstraints | SwCreator/serialization/SwCreatorQtUiImporter.cpp:190-214 | Constraints that are read are positive, and a maximum is below the "no maximum" value |
| UiReader.SpacerChild | SwCreator/serialization/SwCreatorQtUiImporter.cpp:369-406 | A spacer child is visible, keeps its cell and has size hints that are not negative |
| UiLookups.ItemReads | SwCreator/serialization/SwCreatorQtUiImporter.cpp:567-601 | An item stands for its first widget, layout or spacer, in the cell that its own row, column and span attributes name |
| UiLookups.ConstraintsByLookup | SwCreator/serialization/SwCreatorQtUiImporter.cpp:190-214 | Each size bound comes from the last property of its name that gives a usable extent along its own dimension |
| UiLookups.LayoutPropsByLookup | SwCreator/serialization/SwCreatorQtUiImporter.cpp:300-324 | Each margin and each spacing comes from the last property of its own name or of the general one, 9 and 6 without any |
| UiLookups.SpacerByLookup | SwCreator/serialization/SwCreatorQtUiImporter.cpp:369-406 | Hints, orientation and size type of a spacer, each from its own last usable property; without a size type it expands |
| UiLookups.ExpandingPolicies | SwCreator/serialization/SwCreatorQtUiImporter.cpp:417-432 | With or without a scope before the name, exactly three of the seven policies let a spacer take more than its hint |
| UiLookups.FirstVisible | SwCreator/serialization/SwCreatorQtUiImporter.cpp:121-146 | The first visible property decides; false and 0 hide, in any case and with blanks around |
| MeasureFacts.TextFits | SwCreator/serialization/SwCreatorQtUiImporter.cpp:246-287 | A visible widget of a text class with a caption and no maximum width measures at least seven pixels per character and the room around the text |
| MeasureFacts.NoText | SwCreator/serialization/SwCreatorQtUiImporter.cpp:261-276 | A widget of another class, or without a caption, asks for no width by its text |
| MeasureFacts.LayoutOrClassWins | SwCreator/serialization/SwCreatorQtUiImporter.cpp:603-628 | Without constraints the size is that of the layout, else that of the class, each direction for itself, and the text may ask for more width |
| MeasureFacts.GeometryIsLast | SwCreator/serialization/SwCreatorQtUiImporter.cpp:622-628 | A widget with neither layout, class size nor text measures its geometry, width from width and height from height |
| MeasureFacts.SizeIsBounded | SwCreator/serialization/SwCreatorQtUiImporter.cpp:630-646 | Whatever it measures by, a widget keeps to its own minimum and maximum sizes, read off its properties, and equal ones fix it |
| MeasureFacts.BoundsLeaveAlone | SwCreator/serialization/SwCreatorQtUiImporter.cpp:630-646 | Bounds that the size already keeps change nothing |
| MeasureFacts.MaximumStandsIn | SwCreator/serialization/SwCreatorQtUiImporter.cpp:630-646 | With nothing to measure by, a maximum below 400 wide or 300 high stands in for the size and a larger one does not |
| MeasureFacts.HiddenMeasuresNothing | SwCreator/serialization/SwCreatorQtUiImporter.cpp:603-606 | A widget that is not visible measures nothing |
| ImportRun.EstimateWidget | SwCreator/serialization/SwCreatorQtUiImporter.cpp:603-646 | The recursive measuring of a widget equals the specification `WidgetSize` |
| ImportRun.EstimateLayout | SwCreator/serialization/SwCreatorQtUiImporter.cpp:648-749 | The measuring of a layout, with its accumulators and tables, equals `LayoutSize` |
| ImportRun.EstimateChild | SwCreator/serialization/SwCreatorQtUiImporter.cpp:751-762 | The measuring of any child equals `ChildSize` |
| ImportRun.GridTotal | SwCreator/serialization/SwCreatorQtUiImporter.cpp:691-746 | The table of shared claims sums to the extent of the covered tracks and the spacing between them |
| BoxLayout.RunSeparated | SwCreator/serialization/SwCreatorQtUiImporter.cpp:833-845 | For any lengths and spacing: neighbours are exactly the spacing apart, every extent is at least 1, and a segment that starts before the far edge does not cross it |
| BoxLayout.RunUnclipped | SwCreator/serialization/SwCreatorQtUiImporter.cpp:833-845 | A run of positive lengths that fits is laid out at its exact offsets without clipping |
| BoxLayout.SpreadExact | SwCreator/serialization/SwCreatorQtUiImporter.cpp:815-831 | If the fixed parts fit, lengths plus spacing reach their goal (the inner length when there is a flexible child, the fixed parts otherwise) if and only if no child measures negative, and fall short otherwise |
| BoxLayout.VerticalExact | SwCreator/serialization/SwCreatorQtUiImporter.cpp:794-831 | The same for the children of a vertical box, with the condition on what its widgets and layouts measure |
| BoxLayout.HorizontalExact | SwCreator/serialization/SwCreatorQtUiImporter.cpp:847-883 | The same for a horizontal box before shrinking; the measure of a flexible widget does not matter |
| Samples.NegativeFallsShort | SwCreator/serialization/SwCreatorQtUiImporter.cpp:847-883 | A concrete layout with a left margin of -50 that measures -21, counts as flexible, receives nothing and leaves its box short |
| BoxLayout.SharesEven | SwCreator/serialization/SwCreatorQtUiImporter.cpp:868-883 | Two flexible shares differ by at most one pixel and earlier ones are not smaller |
| BoxLayout.ReceiversAreCounted | SwCreator/serialization/SwCreatorQtUiImporter.cpp:847-883 | The children counted as flexible are the ones that receive a share if and only if no child measures negative |
| BoxAgreement.VBoxRun | SwCreator/serialization/SwCreatorQtUiImporter.cpp:794-845 | For every input of a vertical box: start, exact spacing, extents of at least 1 and no crossing of the far edge |
| BoxAgreement.HBoxRun | SwCreator/serialization/SwCreatorQtUiImporter.cpp:847-919 | The same for every input of a horizontal box, after shrinking |
| BoxAgreement.VBoxDisjoint | SwCreator/serialization/SwCreatorQtUiImporter.cpp:833-845 | With spacing that is not negative no two rectangles of a vertical box overlap |
| BoxAgreement.HBoxDisjoint | SwCreator/serialization/SwCreatorQtUiImporter.cpp:904-919 | With spacing that is not negative no two rectangles of a horizontal box overlap |
| BoxAgreement.HBoxMinimumsFit | SwCreator/serialization/SwCreatorQtUiImporter.cpp:885-919 | If every segment is at least 1 and minimums plus spacing fit, every child of a horizontal box lies inside after shrinking |
| BoxRoom.SpreadHolds | SwCreator/serialization/SwCreatorQtUiImporter.cpp:794-845 | The exact room along a box, for children of any measure: every child lies inside with every fixed one at its own length if and only if no fixed child is empty and the fixed lengths, a pixel per flexible child and the spacing fit |
| BoxRoom.HoldsNeedsRoom | SwCreator/serialization/SwCreatorQtUiImporter.cpp:833-845 | Whatever lengths are handed out, children that all lie inside with the fixed ones at their own lengths need that room |
| BoxRoom.NothingShrunk | SwCreator/serialization/SwCreatorQtUiImporter.cpp:885-904 | In that room the shrinking of a horizontal box changes nothing, whatever the minimums |
| BoxRoom.ReceiversShow | SwCreator/serialization/SwCreatorQtUiImporter.cpp:815-831 | Every receiving child gets at least a pixel if and only if there are no more receivers than pixels available |
| BoxRoom.MeasuredRoom | SwCreator/serialization/SwCreatorQtUiImporter.cpp:648-690 | The measured length is that room if and only if no fixed child is empty and the flexible children measure a pixel each on average |
| BoxRoom.SpreadGrows | SwCreator/serialization/SwCreatorQtUiImporter.cpp:815-831 | More room never lowers what any child is given |
| BoxAgreement.VBoxAgrees | SwCreator/serialization/SwCreatorQtUiImporter.cpp:794-845 | For the children of a vertical box, of any measure, in any room: all lie inside and each one that is not flexible gets exactly its measured height if and only if the exact room is there |
| BoxAgreement.VMeasureSuffices | SwCreator/serialization/SwCreatorQtUiImporter.cpp:648-676 | The measured height is that room if and only if no fixed spacer is empty and the flexible children measure a pixel each on average; so it is when every child measures something |
| BoxAgreement.VBoxFills | SwCreator/serialization/SwCreatorQtUiImporter.cpp:794-845 | In the exact room the run ends at the far inner edge if and only if there are flexible children of which none measures negative or to which at most a pixel each, and one more for each that receives, is available; or there is none and the fixed parts fill the box |
| BoxAgreement.HLengthsAgree | SwCreator/serialization/SwCreatorQtUiImporter.cpp:847-904 | In the exact room of a horizontal box the lengths are the distributed ones: nothing is shrunk |
| BoxAgreement.HBoxAgrees | SwCreator/serialization/SwCreatorQtUiImporter.cpp:847-919 | The exact condition for a horizontal box, with flexible widgets, minimums and shrinking |
| BoxAgreement.HMeasureSuffices | SwCreator/serialization/SwCreatorQtUiImporter.cpp:677-690 | When the measured width of a horizontal box is the exact room |
| BoxAgreement.FlexibleGetsMeasure | SwCreator/serialization/SwCreatorQtUiImporter.cpp:847-883 | In the exact room a flexible child has some width in this and in every larger room if and only if its share of this room is that much |
| BoxAgreement.HBoxFills | SwCreator/serialization/SwCreatorQtUiImporter.cpp:847-919 | The same condition for the end of a horizontal run |
| Samples.TextEditSqueezed | SwCreator/serialization/SwCreatorQtUiImporter.cpp:847-883 | A concrete horizontal box of a text edit whose layout measures 229 and a line edit measuring 80: placed in its measured 315 the text edit gets 155 |
| Samples.EmptyChildrenOverflow | SwCreator/serialization/SwCreatorQtUiImporter.cpp:794-845 | A concrete vertical box of two text edits that measures 6: placed in that, the second one stands below it |
| BoxAgreement.VBoxWidthFits | SwCreator/serialization/SwCreatorQtUiImporter.cpp:540-565 | Across a vertical box a child of any measure is never wider than an inner width that covers its measure |
| BoxAgreement.HBoxHeightFits | SwCreator/serialization/SwCreatorQtUiImporter.cpp:513-538 | Across a horizontal box a child is never taller than an inner height that covers its measure, and a nested layout that measures something gets exactly that |
| BoxShape.VBoxWidthIs | SwCreator/serialization/SwCreatorQtUiImporter.cpp:540-565 | Across a vertical box a child has exactly the inner width, whatever it measures, unless its own bounds say otherwise: the smaller of room and maximum, at least the minimum, the fixed size |
| BoxShape.HBoxHeightIs | SwCreator/serialization/SwCreatorQtUiImporter.cpp:513-538 | Across a horizontal box a child has the height it measures, or the inner height when it measures nothing, within its own bounds; a spacer has the inner height |
| BoxShape.HBoxCentred | SwCreator/serialization/SwCreatorQtUiImporter.cpp:904-919 | A child of a horizontal box is centred across it, the odd pixel below, and starts at the top when it is higher than the room |
| BoxShape.BoxStarts | SwCreator/serialization/SwCreatorQtUiImporter.cpp:833-845 | The first child of a box starts at its top left corner inside the margins |
| BoxShape.BoxSpacing | SwCreator/serialization/SwCreatorQtUiImporter.cpp:833-845 | Neighbours in a box are exactly its own spacing apart |
| BoxShape.SpacerTakesHint | SwCreator/serialization/SwCreatorQtUiImporter.cpp:794-883 | In the exact room a spacer that does not expand takes its hint, the height in a vertical box and the width in a horizontal one |
| BoxShape.NeedInHBox | SwCreator/serialization/SwCreatorQtUiImporter.cpp:885-904 | What shrinking spares: the minimum width of a widget, the hint of a spacer that does not expand, else a pixel |
| BoxShape.HBoxKeepsMinimum | SwCreator/serialization/SwCreatorQtUiImporter.cpp:885-904 | No child of a horizontal box is shrunk below that |
| BoxShape.FlexibleUnlessBounded | SwCreator/serialization/SwCreatorQtUiImporter.cpp:434-457 | A widget of a flexible class is shared out unless its width is fixed or has a maximum below 400 |
| BoxShape.VMeasureIsLeast | SwCreator/serialization/SwCreatorQtUiImporter.cpp:648-676 | A vertical box of fixed children holds them, each at its own height, exactly from its measured height on |
| BoxShape.HMeasureIsLeast | SwCreator/serialization/SwCreatorQtUiImporter.cpp:677-690 | A horizontal box of fixed children holds them, each at its own width, exactly from its measured width on |
| BoxShape.MeasureAcrossIsLeast | SwCreator/serialization/SwCreatorQtUiImporter.cpp:655-690 | Across a box, what it measures is the least that covers what every child measures |
| BoxShape.EmptyLayouts | SwCreator/serialization/SwCreatorQtUiImporter.cpp:648-749 | A layout without items measures nothing, a box whose children are all hidden its margins |
| BoxShape.FallbackSlices | SwCreator/serialization/SwCreatorQtUiImporter.cpp:1094-1107 | A layout of an unknown class gives all its children the inner width and one height, one below the other |
| GridLayout.TracksKeepMinimums | SwCreator/serialization/SwCreatorQtUiImporter.cpp:957-1064 | Every covered track wants at least its minimum, which is at least 1, and shrinking keeps it at or above that minimum |
| GridLayout.CellExtentExact | SwCreator/serialization/SwCreatorQtUiImporter.cpp:1066-1091 | The extent of a child is exactly the sum of the tracks it spans plus the spacing between them, although empty tracks contribute neither |
| GridLayout.CellsSeparated | SwCreator/serialization/SwCreatorQtUiImporter.cpp:1066-1091 | Children whose spans do not meet along an axis are at least the spacing apart along it |
| GridLayout.GridDisjoint | SwCreator/serialization/SwCreatorQtUiImporter.cpp:921-1091 | Children with disjoint cell ranges get disjoint rectangles |
| GridLayout.AxisInside | SwCreator/serialization/SwCreatorQtUiImporter.cpp:957-1091 | Along one axis of a grid every child lies inside if and only if the track minimums and the spacing fit, whatever the tracks wanted and however they were shrunk |
| GridLayout.GridInside | SwCreator/serialization/SwCreatorQtUiImporter.cpp:957-1091 | Every placed child lies inside the inner rectangle if and only if the minimums fit on both axes |
| GridLayout.AxesValid | SwCreator/serialization/SwCreatorQtUiImporter.cpp:921-957 | The axes built from children with cells that are not negative satisfy what the grid facts ask for |
| GridShape.AxesRead | SwCreator/serialization/SwCreatorQtUiImporter.cpp:921-957 | The two axes of a grid, read off its children: rows from row numbers, columns from column numbers, and the least sizes 24 and 40 of flexible tracks |
| GridShape.RowAsked | SwCreator/serialization/SwCreatorQtUiImporter.cpp:975-1002 | What a child asks of the only row it spans, by its own bounds, its layout, its class or its hint |
| GridShape.ColAsked | SwCreator/serialization/SwCreatorQtUiImporter.cpp:1003-1026 | What a child asks of the only column it spans, by its own bounds or its hint |
| GridShape.SharedColumn | SwCreator/serialization/SwCreatorQtUiImporter.cpp:935-955 | A column counts as shared as soon as one widget or layout reaches into it |
| GridShape.SetsMaximum | SwCreator/serialization/SwCreatorQtUiImporter.cpp:350-367 | A widget whose own layout asks for the maximum size is taken by its measured height |
| GridShape.SetsNoMaximum | SwCreator/serialization/SwCreatorQtUiImporter.cpp:350-367 | A request anywhere but in a layout of its own does not count |
| GridShape.NeedOf | SwCreator/serialization/SwCreatorQtUiImporter.cpp:975-1026 | What shrinking leaves a child of its row and of its column |
| GridShape.LargestAskWins | SwCreator/serialization/SwCreatorQtUiImporter.cpp:961-1064 | When the tracks get what they want, the child that asks most of its one track gets exactly that |
| GridShape.UnaskedIsFlexible | SwCreator/serialization/SwCreatorQtUiImporter.cpp:1032-1051 | A track of which nobody asks anything gets the common share |
| GridShape.FlexibleTracksFill | SwCreator/serialization/SwCreatorQtUiImporter.cpp:1032-1051 | The flexible tracks take all the room that the others leave, but for less than a pixel each, or have their least size |
| GridShape.TrackKeepsNeed | SwCreator/serialization/SwCreatorQtUiImporter.cpp:957-1064 | Shrinking never takes the track of a child below what that child needs |
| GridShape.GridStarts | SwCreator/serialization/SwCreatorQtUiImporter.cpp:1066-1091 | The first column starts at the left margin and the first row at the top one |
| GridShape.ClaimsCoverChild | SwCreator/serialization/SwCreatorQtUiImporter.cpp:691-746 | The tracks as measured cover what every child measures over the cells it spans |
| GridShape.SharedIsLeast | SwCreator/serialization/SwCreatorQtUiImporter.cpp:715-735 | Each track is claimed an equal share, rounded up by less than a pixel |
| GridShape.GridMeasure | SwCreator/serialization/SwCreatorQtUiImporter.cpp:691-746 | A grid measures its claimed tracks, its own spacing between those that are used, and its margins on both sides |
| GridRun.MarkCovered | SwCreator/serialization/SwCreatorQtUiImporter.cpp:935-955 | The marking loops mark exactly the tracks that some child spans |
| GridRun.FillTables | SwCreator/serialization/SwCreatorQtUiImporter.cpp:961-1030 | The tables of fixed sizes and minimums hold, per track, exactly the maxima over the children that start there |
| GridRun.FinalSizes | SwCreator/serialization/SwCreatorQtUiImporter.cpp:1032-1064 | Summing, sizing the flexible tracks and shrinking in place give exactly the specified track sizes, with empty tracks at -1 |
| GridRun.TrackStarts | SwCreator/serialization/SwCreatorQtUiImporter.cpp:1066-1079 | The cumulative starts equal the sums over covered tracks only |
| Placement.SpreadSegments | SwCreator/serialization/SwCreatorQtUiImporter.cpp:796-831 | The two loops over the active children fill the lengths exactly as the distribution specifies |
| Placement.PlaceVertical | SwCreator/serialization/SwCreatorQtUiImporter.cpp:794-845 | The loops of the vertical branch write exactly the specified rectangles at the active positions and nothing elsewhere |
| Placement.PlaceHorizontal | SwCreator/serialization/SwCreatorQtUiImporter.cpp:847-919 | The same for the horizontal branch with its minimum widths and shrinking |
| ChildRects.PlaceGrid | SwCreator/serialization/SwCreatorQtUiImporter.cpp:1081-1091 | The placing loop of the grid branch writes exactly the specified rectangles |
| ChildRects.ComputeChildRects | SwCreator/serialization/SwCreatorQtUiImporter.cpp:767-1107 | The whole routine: every active child gets the specified rectangle and every hidden one the default rectangle |
| ImportTree.FlattenedInOrder | SwCreator/serialization/SwCreatorQtUiImporter.cpp:1120-1177 | What is written for a layout is exactly the visible widgets and spacers of its tree, each once, in document order; nested layouts write no element of their own |
| GridAgreement.MinimumsFitMeasure | SwCreator/serialization/SwCreatorQtUiImporter.cpp:691-746 | The minimums of the covered tracks plus spacing never exceed what measuring reports for a grid with children |
| GridAgreement.GridAgrees | SwCreator/serialization/SwCreatorQtUiImporter.cpp:921-1091 | The same for the children of a grid layout, of any measure, in any room |
| GridAgreement.MeasureSuffices | SwCreator/serialization/SwCreatorQtUiImporter.cpp:691-746 | The measured extent is room enough if and only if what the children claim of the tracks covers the minimums |
| GridAgreement.GridMeasureSuffices | SwCreator/serialization/SwCreatorQtUiImporter.cpp:691-746 | So a grid placed in what it measures holds its children if each of them measures something |
| GridAgreement.NestedExtent | SwCreator/serialization/SwCreatorQtUiImporter.cpp:1032-1091 | When the wanted tracks fit, a child gets exactly what its tracks want and the spacing between them |
| GridAgreement.NestedGetsMeasure | SwCreator/serialization/SwCreatorQtUiImporter.cpp:1032-1091 | The exact condition, checked before placing, for a layout nested in a grid cell: when the wanted tracks fit, it gets at least its measure in this room and in any more if and only if its tracks want that much |
| GridAgreement.EnoughInAnyRoom | SwCreator/serialization/SwCreatorQtUiImporter.cpp:1032-1091 | For any grid, shrunk or not, finitely many rooms decide whether a child has some extent in this room and in every larger one |
| GridAgreement.LeastExtentGrows | SwCreator/serialization/SwCreatorQtUiImporter.cpp:1032-1091 | The extent a child surely has never falls when there is more room, although the extent itself can |
| Samples.NestedSqueezed | SwCreator/serialization/SwCreatorQtUiImporter.cpp:1032-1091 | A concrete grid of two layouts measuring 229 and 38: placed in its measured 273 both rows get 133, so the first layout gets less than it measures |
| TreeFit.WidgetCoversLayout | SwCreator/serialization/SwCreatorQtUiImporter.cpp:603-646 | A widget measures at least its layout, in each direction in which that measures something, if and only if its maximum size admits it |
| TreeRoom.ChildrenDisjoint | SwCreator/serialization/SwCreatorQtUiImporter.cpp:767-1107 | In a layout of any class with spacings that are not negative, and cells that do not overlap in a grid, no two children overlap |
| TreeRoom.WidgetHolds | SwCreator/serialization/SwCreatorQtUiImporter.cpp:1186-1278 | A widget holds its first layout, except a splitter |
| TreeRoom.GivenGrows | SwCreator/serialization/SwCreatorQtUiImporter.cpp:767-1107 | A layout of any class that holds its children in some room holds them in every larger one and gives none of them less |
| TreeRoom.ChildHas | SwCreator/serialization/SwCreatorQtUiImporter.cpp:767-1107 | A child of a layout that holds its children lies inside it and has at least what it is surely given |
| TreeRoom.HoldsMore | SwCreator/serialization/SwCreatorQtUiImporter.cpp:767-1278 | The same through nested layouts and the layouts of widgets, at every level |
| TreeRoom.MoreRoomFits | SwCreator/serialization/SwCreatorQtUiImporter.cpp:1120-1278 | A tree that holds in some room, placed in that room or any larger one: at every level all elements lie inside what holds them and never overlap |
| TreeFit.ChildFits | SwCreator/serialization/SwCreatorQtUiImporter.cpp:767-1091 | In a box or grid that its measures suit, given at least its measured size, every child is inside and has room for the layout it holds, nested or its own |
| TreeFit.MeasureHolds | SwCreator/serialization/SwCreatorQtUiImporter.cpp:603-762 | Measuring is enough for placing: a regular tree holds its children, at every level, in what it measures |
| TreeFit.TreeFits | SwCreator/serialization/SwCreatorQtUiImporter.cpp:1120-1278 | So a regular tree of boxes and grids, placed in at least its measured size, has all elements inside what holds them and apart, at every level; flexible widgets with a layout and children that measure nothing are part of it where the exact conditions hold |
| ImportRun.EmitLayoutContent | SwCreator/serialization/SwCreatorQtUiImporter.cpp:1120-1177 | The emitting recursion over rectangles computed at run time writes exactly `EmitLayout` |
| XmlPrinter.XmlEscape | SwCreator/serialization/SwCreatorSwuiSerializer.cpp:24-38 | The escaping loop computes `Escape` |
| XmlRoundTrip.EscapeClean | SwCreator/serialization/SwCreatorSwuiSerializer.cpp:24-38 | Escaped text holds no raw delimiter |
| XmlRoundTrip.DecodeEscape | src/core/types/SwXmlDocument.h:315-371 | Decoding entities, among them the five predefined ones of section 4.6 of XML 1.0, undoes escaping |
| XmlParser.ParsedWellFormed | src/core/types/SwXmlDocument.h:166-591 | Whatever text is read successfully gives a tree with valid names and attribute maps in key order |
| XmlRoundTrip.ReadTag | src/core/types/SwXmlDocument.h:471-591 | Whatever follows in the input, the reader takes back exactly the printed tree, with spacers as designer widgets and white space as the text of elements with children |
| XmlStream.Stream.EmitNode | SwCreator/serialization/SwCreatorSwuiSerializer.cpp:333-364 | The emitter appends exactly the printed form of the tree to the stream |
| XmlStream.Stream.EmitDesignerSpacer | SwCreator/serialization/SwCreatorSwuiSerializer.cpp:310-331 | The emitter of a designer spacer appends exactly its printed form |
| SpacerReload.DesignerNodeKeepsInfo | SwCreator/serialization/SwCreatorSwuiSerializer.cpp:159-198 | Reading the properties of the designer widget made for a spacer gives back its name, both policies, both sizes and its direction |
| SpacerReload.DesignerTextKeepsInfo | SwCreator/serialization/SwCreatorSwuiSerializer.cpp:310-331 | The same through the text, whatever follows it |
| SpacerReload.DesignerIsMarked | SwCreator/serialization/SwCreatorSwuiSerializer.cpp:310-331 | The designer widget carries the design marker and the spacer class, and its geometry is as wide and high as the spacer asks to be |
| SpacerReload.CycleKeepsSpacer | SwCreator/serialization/SwCreatorSwuiSerializer.cpp:159-331 | Saving a spacer, loading what was saved and saving again keeps both policies, both sizes and the direction |
| SpacerReload.CycleSettles | SwCreator/serialization/SwCreatorSwuiSerializer.cpp:159-331 | From the first cycle on a further one changes nothing |
| SpacerReload.PreparedSpacerIsKept | SwCreator/serialization/SwCreatorSwuiSerializer.cpp:333-378 | In a whole prepared document: wherever a spacer stood there is a widget that the next save reads as that very spacer |
| CanvasText.ParsePrinted | SwCreator/serialization/SwCreatorSwuiSerializer.cpp:333-378 | A printed well-formed document parses to its reloaded tree, with nothing but a line end left over |
| CanvasText.PrintInjective | SwCreator/serialization/SwCreatorSwuiSerializer.cpp:333-364 | Two well-formed spacer-free trees print alike if and only if they agree up to the text of elements with children |
| CanvasText.ReloadedSpacerFree | SwCreator/serialization/SwCreatorSwuiSerializer.cpp:366-378 | No spacer element is left after preparing a document |
| CanvasText.NodesKeepTheirPlace | SwCreator/serialization/SwCreatorSwuiSerializer.cpp:333-364 | Along any path: a spacer is replaced where it stood by the designer widget of its info, every other node keeps name, attributes and number of children |
| CanvasText.MaterializeStabilises | SwCreator/serialization/SwCreatorSwuiSerializer.cpp:366-378 | For every text that parses, preparing succeeds, its result parses to the replaced tree without spacers, preparing again leaves that tree as it is up to the white space between lines, and the second text never changes again |
| CanvasText.IdempotentIffSpacerFree | SwCreator/serialization/SwCreatorSwuiSerializer.cpp:366-378 | Preparing is idempotent on a text if and only if its tree holds no spacer |
| CanvasText.LoneSpacerNotIdempotent | SwCreator/serialization/SwCreatorSwuiSerializer.cpp:366-378 | The concrete text of a lone spacer, for which preparing once and twice differ |
| Spacers.SpacerReadByLookup | SwCreator/serialization/SwCreatorSwuiSerializer.cpp:200-272 | Reading a spacer depends only on the last usable property of each name, and explicit axis policies win over the general one |
| Spacers.PropertyOrderIrrelevant | SwCreator/serialization/SwCreatorSwuiSerializer.cpp:200-272 | Reordering properties with distinct names changes nothing about the spacer that is read |
| Spacers.PolicyRoundTrip | src/core/gui/SwSpacer.h:97-132 | Every policy is read back from its name |
| Spacers.PolicyExactly | src/core/gui/SwSpacer.h:114-132 | A policy is read from its own name only, after any scope and without blanks; any other text means the default one |
| Spacers.SpacerNodeKeepsInfo | SwCreator/serialization/SwCreatorSwuiSerializer.cpp:200-308 | Reading the node of a saved spacer gives back its info with trimmed orientation and sizes that are not negative |
| Spacers.SpacerSaveLoad | SwCreator/serialization/SwCreatorSwuiSerializer.cpp:274-308 | The same through the text: a printed spacer parses, whatever follows it, to a node with that info |
| Spacers.NormalisedStable | SwCreator/serialization/SwCreatorSwuiSerializer.cpp:274-308 | Saving what was loaded changes nothing more |
| Text.ToIntOfIntText | src/core/types/SwString.h:375-397 | Every 32-bit integer is read back from its decimal text |
| Text.TrimmedIdempotent | src/core/types/SwString.h:869-890 | Trimming twice trims no more than once |
| Text.TrimmedExactly | src/core/types/SwString.h:869-890 | Trimming takes spaces, tabs and line ends off both ends, all of them, and nothing else |
| DocForest.BuildDocSet | SwCreator/serialization/SwCreatorSwuiSerializer.cpp:456-535 | The climbing loops and the page loops compute the document set |
| DocForest.PagesAgree | SwCreator/serialization/SwCreatorSwuiSerializer.cpp:496-535 | What the page loops add, container by container, is exactly the set of contents and pages of design containers |
| DocContents.DocSetExactly | SwCreator/serialization/SwCreatorSwuiSerializer.cpp:456-535 | The document set, read off the tree: the design widgets and every other widget above one, content of a design scroll area or page of a design container, unless it stands beside the content of a scroll area |
| DocContents.ContentSaved | SwCreator/serialization/SwCreatorSwuiSerializer.cpp:496-507 | The content of a design scroll area is always saved, in the scroll area itself or in its viewport |
| DocContents.BesideSavedOnlyAsDesign | SwCreator/serialization/SwCreatorSwuiSerializer.cpp:51-63 | Any other child of a scroll area is saved only if it is a design widget |
| DocContents.ListedUnderNearest | SwCreator/serialization/SwCreatorSwuiSerializer.cpp:537-556 | A document widget is listed under its nearest ancestor that is in the document and stands beside no content |
| DocContents.ListedUnderContent | SwCreator/serialization/SwCreatorSwuiSerializer.cpp:537-556 | A document widget directly in the content of a scroll area is listed under the content |
| DocContents.ContentListed | SwCreator/serialization/SwCreatorSwuiSerializer.cpp:537-556 | The content is listed under its scroll area |
| DocContents.NothingListedBeside | SwCreator/serialization/SwCreatorSwuiSerializer.cpp:537-556 | Nothing is ever listed under a part beside the content of a scroll area |
| DocContents.ScrollAreaSaved | SwCreator/serialization/SwCreatorSwuiSerializer.cpp:456-583 | A concrete scroll area with its content, a design widget in it and a viewport: written are the area, the content and the widget |
| DocForest.DocSetHasAncestors | SwCreator/serialization/SwCreatorSwuiSerializer.cpp:476-494 | Stopping the climb at the first design ancestor loses nothing: every widget ancestor of a design widget that is not internal is in the document |
| DocForest.ParentListsRoots | SwCreator/serialization/SwCreatorSwuiSerializer.cpp:537-583 | The list of the parent of any siblings holds exactly the roots of their forest |
| DocForest.ListsHoldForest | SwCreator/serialization/SwCreatorSwuiSerializer.cpp:558-583 | Throughout the forest, the list kept for a document widget holds exactly its children |
| DocForest.WrittenInTreeOrder | SwCreator/serialization/SwCreatorSwuiSerializer.cpp:558-583 | Writing the forest lists the document widgets in the order of the widget tree |
| DocForest.WrittenExactly | SwCreator/serialization/SwCreatorSwuiSerializer.cpp:558-583 | A document widget is written if and only if it is reached through widgets alone |
| DocForest.ListingIsPartition | SwCreator/serialization/SwCreatorSwuiSerializer.cpp:537-583 | The saved listing is a partition: the lists hold the forest, recursion from the top-level list reaches every such document widget, each exactly once, in tree order |
| DocForest.BelowPlainIsLost | SwCreator/serialization/SwCreatorSwuiSerializer.cpp:558-583 | A concrete design widget below an object that is not a widget: in the document set, never written |
| DocForest.WidgetParentsLoseNothing | SwCreator/serialization/SwCreatorSwuiSerializer.cpp:558-583 | Where only widgets have children, every located document widget is written |
| DocWriter.ForestBuilder.Visit | SwCreator/serialization/SwCreatorSwuiSerializer.cpp:558-583 | The recursive traversal adds to every list exactly the entries of the specification, and its set of seen widgets never blocks one |
| DocCells.OneOrder | SwCreator/serialization/SwCreatorSwuiSerializer.cpp:714-725 | Cells that start at different places have only one order by row and column, whatever way they are sorted |
| DocCells.RowByRow | SwCreator/serialization/SwCreatorSwuiSerializer.cpp:714-725 | The children of a grid are written row by row, and within a row from left to right |
| DocCells.GridsLoseOnlyCellless | SwCreator/serialization/SwCreatorSwuiSerializer.cpp:705-733 | With grid layouts nothing is written that tree order does not hold, nothing more often, and everything if and only if every child of a widget with a grid has a cell |
| DocCells.GridsKeepTreeOrder | SwCreator/serialization/SwCreatorSwuiSerializer.cpp:705-744 | The document is written in tree order if and only if every grid has a cell per child in the order of the kept list |
| DocCells.CelllessIsLost | SwCreator/serialization/SwCreatorSwuiSerializer.cpp:705-733 | A concrete grid of two children: without a cell one of them is not written, and cells in another order change the order |
| DocWriter.ForestBuilder.WriteNode | SwCreator/serialization/SwCreatorSwuiSerializer.cpp:606-757 | A widget and everything below it, children in the order of its grid cells if it has a grid layout and of the list kept for it otherwise |
| DocWriter.ForestBuilder.WriteAll | SwCreator/serialization/SwCreatorSwuiSerializer.cpp:727-753 | The loops over cells and over lists write exactly the specified order |
| DocWriter.SaveOrder | SwCreator/serialization/SwCreatorSwuiSerializer.cpp:451-770 | End to end, from the design widgets and the grid layouts to the written order: only widgets of the document, each at most once, all of them exactly when every child in a grid has a cell, and in tree order exactly when the cells follow the lists |
| DocWriter.NoGrids | SwCreator/serialization/SwCreatorSwuiSerializer.cpp:735-744 | Without grid layouts the lists are followed everywhere |
| WidgetTree.MoveKeepsForest | src/core/object/SwObject.h:1174-1184 | Giving a widget another parent keeps the forest if and only if that parent is not inside the widget |
| WidgetTree.MoveIntoItselfLoops | src/core/object/SwObject.h:1174-1184 | Otherwise walking up from the moved widget never ends |
| FormCanvas.Canvas.IsDescendantOf | SwCreator/designer/SwCreatorFormCanvas.cpp:1832-1842 | The walk up the parents ends and answers whether the widget is the ancestor or below it |
| FormCanvas.Canvas.RegisterDesignWidget | SwCreator/designer/SwCreatorFormCanvas.cpp:1787-1820 | A widget is listed once, at the end, however often it is registered |
| FormCanvas.Canvas.Delete | src/core/object/SwObject.h:899-925 | The destructor frees exactly the widget and everything below it, each once and after everything below it, while list, selection and drop target refer to none of them |
| FormCanvas.Canvas.LetGo | SwCreator/designer/SwCreatorFormCanvas.cpp:1848-1860 | List, selection and drop target let go of exactly the widget and everything below it |
| FormCanvas.PointerKept | SwCreator/designer/SwCreatorFormCanvas.cpp:1848-1856 | Selection and drop target let go of what is inside the removed widget, and of nothing else |
| FormCanvas.OutsideJoin | SwCreator/designer/SwCreatorFormCanvas.cpp:1857-1860 | The widgets left on the list stay in their order |
| FormCanvas.Canvas.RemoveDesignWidget | SwCreator/designer/SwCreatorFormCanvas.cpp:1822-1866 | The whole new state of a removal, when it leaves every container with a live content, and that a widget that is not listed changes nothing |
| FormCanvas.Canvas.Clear | SwCreator/app/SwCreatorDocument.cpp:91-108 | Clearing from a copy of the list frees each listed widget and everything below one exactly once and after everything below it, for any order and nesting, and empties the list; contents stay alive if and only if every container whose content goes goes as well |
| FormCanvas.Canvas.DropContentParent | SwCreator/designer/SwCreatorFormCanvas.cpp:2711-2754 | The content, page or container that takes a dropped widget, alive or not; an empty holder gets a new frame first |
| FormCanvas.Canvas.ReparentDesignWidget | SwCreator/designer/SwCreatorFormCanvas.cpp:1868-1951 | The guard, the new links, what stays unchanged, and that the links stay a forest if and only if the widget landed in is alive and not inside the moved one |
| CanvasMoves.LandedForest | SwCreator/designer/SwCreatorFormCanvas.cpp:1885-1915 | In whatever state earlier removals left the containers, a move keeps the links a forest if and only if it lands in a live widget that is not inside the moved one |
| CanvasMoves.WhereItLands | SwCreator/designer/SwCreatorFormCanvas.cpp:2711-2754 | Where a dropped widget goes: content, current page or new frame of the three holders, any other container itself |
| CanvasMoves.RemovalKeepsContents | SwCreator/designer/SwCreatorFormCanvas.cpp:1857-1864 | Removing a widget leaves every content alive if and only if each container whose content is inside the widget is inside it itself |
| CanvasMoves.ClearingKeepsContents | SwCreator/app/SwCreatorDocument.cpp:91-108 | With contents in place, clearing leaves every content alive if and only if each container whose content or viewport is on the list is itself listed or below a listed widget |
| CanvasMoves.RemovedPageStaysReferred | src/core/gui/SwTabWidget.h:420-425 | A concrete removal of a page: its tab widget still refers to it, and a move that passes the guard then lands in it |
| CanvasMoves.CarefulRunKeeps | SwCreator/designer/SwCreatorFormCanvas.cpp:1868-1951 | Any run of moves that pass the guard and move no content or viewport keeps the forest and keeps contents under their containers |
| CanvasMoves.PageThenItsFrame | SwCreator/designer/SwCreatorFormCanvas.cpp:1868-1951 | A concrete run of two guarded moves, a page into a frame and the frame onto its tab widget, that closes a cycle |
| CanvasMoves.MoveFailsOnlyAtContent | SwCreator/designer/SwCreatorFormCanvas.cpp:1885-1912 | When the content is a child of the container the guard lets through exactly one bad move: the content itself |
| CanvasMoves.MoveFailsOnlyAtScrollContent | SwCreator/designer/SwCreatorFormCanvas.cpp:2716-2726 | The same for a scroll area, whose content lies below its viewport |
| CanvasMoves.PageOntoItsTabWidget | SwCreator/designer/SwCreatorFormCanvas.cpp:1885-1912 | A concrete move that passes the guard and makes a page its own parent |
| FormCanvas.Canvas.FindContainerAt | SwCreator/designer/SwCreatorFormCanvas.cpp:2666-2709 | The first of the smallest eligible containers under the cursor, none when there is none; the ignored widget passes the guard for it |
| FormCanvas.InnerIsSmaller | SwCreator/designer/SwCreatorFormCanvas.cpp:2666-2709 | Of two containers one within the other the inner one is never larger by area, and smaller if it is narrower or lower |
| FormCanvas.AreaIsProduct | SwCreator/designer/SwCreatorFormCanvas.cpp:2666-2709 | Containers are compared by width times height |
| FormCanvas.CoversItsPoints | SwCreator/designer/SwCreatorFormCanvas.cpp:2666-2709 | A rectangle takes every point from its top left to its bottom right corner, both included |
| FormCanvas.NeverEligible | SwCreator/designer/SwCreatorFormCanvas.cpp:2666-2709 | Who never takes a drop: no container, not shown, away from the cursor, the ignored widget and what is inside it |
| FreshNames.NameSource.NextObjectName | SwCreator/designer/SwCreatorFormCanvas.cpp:2786-2818 | The search tries at most one number more than there are design widgets and returns the first unused name from the counter on; the counter moves to its number |
| FreshNames.StemOf | SwCreator/designer/SwCreatorFormCanvas.cpp:2786-2806 | The class name without its prefix, its first letter in lower case |
| FreshNames.FirstTried | SwCreator/designer/SwCreatorFormCanvas.cpp:2807-2811 | Numbers start at 1 for a new class and just behind the last one otherwise |
| FreshNames.SkippedBounded | SwCreator/designer/SwCreatorFormCanvas.cpp:2811-2815 | Pigeonhole: the numbers skipped are no more than the names in use |
| FreshNames.NameInjective | SwCreator/designer/SwCreatorFormCanvas.cpp:2809-2814 | A name determines its stem and its number |
| FreshNames.NamesNeverRepeat | SwCreator/designer/SwCreatorFormCanvas.cpp:2807-2817 | Over any run no name is issued twice, for one class or several, even after widgets were removed, and counters strictly increase |
| DropIndex.ComputeLayoutInsertIndex | SwCreator/designer/SwCreatorFormCanvas.cpp:1099-1198 | The result lies in 0..n and is the first gap nearest to the cursor among the siblings without the dragged one; the indicator stands at that gap |
| DropIndex.GapIsMiddle | SwCreator/designer/SwCreatorFormCanvas.cpp:1146-1160 | Between two siblings the gap is the middle of the space between them, to within the half pixel lost in rounding |
| DropIndex.GapAtEnds | SwCreator/designer/SwCreatorFormCanvas.cpp:1146-1160 | The outer gaps stand two pixels before the first sibling and one behind the last |
| DropIndex.OthersKept | SwCreator/designer/SwCreatorFormCanvas.cpp:1115-1121 | The dragged widget is left out, and no other |
| DropIndex.OthersJoin | SwCreator/designer/SwCreatorFormCanvas.cpp:1115-1121 | The siblings left stay in their order |
| DropIndex.GapsAscending | SwCreator/designer/SwCreatorFormCanvas.cpp:1146-1160 | With siblings in order the gaps are in order |
| DropIndex.IndexMonotone | SwCreator/designer/SwCreatorFormCanvas.cpp:1139-1194 | Moving the cursor forward never decreases the index |
| DropIndex.DropOverSibling | SwCreator/designer/SwCreatorFormCanvas.cpp:1139-1194 | Dropping over a sibling lands directly before or directly after it |
| DropIndex.DropAtEnds | SwCreator/designer/SwCreatorFormCanvas.cpp:1139-1194 | Up to the first gap the index is 0, from the last gap on it is n |
| CommandStack.StepKeepsConsistent | SwCreator/commands/SwCreatorCommandStack.cpp:10-64 | Each operation keeps the document equal to the replay of the first `index` commands |
| CommandStack.StepEffects | SwCreator/commands/SwCreatorCommandStack.cpp:10-64 | What each operation does to the document and to the commands that can be undone and redone |
| CommandStack.RunIsReplay | SwCreator/commands/SwCreatorCommandStack.cpp:5-64 | The same over any run of pushes, undos, redos and clears |
| CommandStack.RunUndone | SwCreator/commands/SwCreatorCommandStack.cpp:46-64 | After any run, undoing and redoing the same number of commands restores everything, and undoing all of them restores the first document |
| CommandStack.Stack.PushApplied | SwCreator/commands/SwCreatorCommandStack.cpp:17-24 | Pushing a command that was already carried out drops the redo part and keeps the document |
| CommandStack.Stack.PushAndRedo | SwCreator/commands/SwCreatorCommandStack.cpp:26-36 | Pushing and carrying out a command |
| CommandStack.Stack.Undo | SwCreator/commands/SwCreatorCommandStack.cpp:46-54 | Undo is the step of the specification, and does nothing at the bottom |
| CommandStack.Stack.Redo | SwCreator/commands/SwCreatorCommandStack.cpp:56-64 | Redo is the step of the specification, and does nothing at the top |
| PingPong.StepKeepsInv | exemples/25-IpcPerfMonitor/IpcPerfMonitor.cpp:262-335 | Every event, in any state, keeps the whole invariant |
| PingPong.NoLostWakeUp | exemples/25-IpcPerfMonitor/IpcPerfMonitor.cpp:302-317 | Over every interleaving a suspended client fiber has exactly its own timer armed, and no timer outlives its round |
| PingPong.PongIsTaken | exemples/25-IpcPerfMonitor/IpcPerfMonitor.cpp:262-330 | A pong with the number of the round, while its wait lasts, makes the fiber ready; the next run adds exactly one sample, the time of this pong, if and only if the round is measured |
| PingPong.OtherPongIgnored | exemples/25-IpcPerfMonitor/IpcPerfMonitor.cpp:263 | A pong with any other number changes nothing |
| PingPong.TimeoutIsNoSample | exemples/25-IpcPerfMonitor/IpcPerfMonitor.cpp:305-325 | A round whose timer fires without a pong adds no sample, and the next one begins at once |
| PingPong.PauseOnlyWithInterval | exemples/25-IpcPerfMonitor/IpcPerfMonitor.cpp:327-335 | After an answered round the client pauses if and only if an interval is set, and pings next otherwise |
| PingPong.AnsweredInTime | exemples/25-IpcPerfMonitor/IpcPerfMonitor.cpp:262-330 | The rounds taken as answered are exactly those that, read off the events, got a pong with their number while their wait lasted |
| PingPong.FinalSamples | exemples/25-IpcPerfMonitor/IpcPerfMonitor.cpp:297-335 | At the end every round was pinged once, and a round has exactly one sample if it is measured and its pong, read off the events, was in time, and none otherwise |
| PingPong.EveryPongCounts | exemples/25-IpcPerfMonitor/IpcPerfMonitor.cpp:297-335 | A client that has ended recorded one value per measured round with its pong in time, and the full count if and only if all of them were |
| PingPong.SamplesBounded | exemples/25-IpcPerfMonitor/IpcPerfMonitor.cpp:295-330 | Samples never exceed the measured round count, whatever the network delivers |
| PingPong.SamplesAreRoundTrips | exemples/25-IpcPerfMonitor/IpcPerfMonitor.cpp:262-330 | With an echoing server and a steady clock each sample is the exact time from the ping of its own round to a pong that carries that number |
| PingPong.ArmedTimerWakes | exemples/25-IpcPerfMonitor/IpcPerfMonitor.cpp:305-309 | The armed timer makes the suspended fiber ready |
| PingPong.WorkShrinks | exemples/25-IpcPerfMonitor/IpcPerfMonitor.cpp:296-339 | Each time the fiber runs a bound on its remaining work falls; no other event raises it |
| PingPong.AlwaysFinishes | exemples/25-IpcPerfMonitor/IpcPerfMonitor.cpp:296-339 | From any reachable state timers and scheduling alone bring the client to its end, even if every pong is lost |
| PingPong.Client.HandlePong | exemples/25-IpcPerfMonitor/IpcPerfMonitor.cpp:262-280 | The pong handler with its exchange of the timer id is the specified step |
| PingPong.Client.FireTimer | src/core/runtime/SwCoreApplication.h:2735-2769 | A one-shot timer is gone before its callback runs, and does nothing if it was removed |
| PingPong.Client.ResumeFiber | exemples/25-IpcPerfMonitor/IpcPerfMonitor.cpp:296-339 | Each stretch of the round loop between two suspensions is the specified step |
| PingPong.Client.RemoveTimer | src/core/runtime/SwCoreApplication.h:1495-1521 | The named timer is gone and the others are as they were; in every reachable state removing a timer that is not there changes nothing |
| PingPong.Client.UnYieldFiber | src/core/runtime/SwFiberPool.h:367-390 | Waking an id nobody waits for changes nothing; waking the awaited one makes the fiber ready |
| PingPong.Client.GenerateYieldId | src/core/runtime/SwCoreApplication.h:2136-2140 | A yield id is negative and differs from every one given out before |
| PingPong.YieldIdsNeverRepeat | src/core/runtime/SwCoreApplication.h:2136-2140 | Over any run, once a suspended fiber has been woken every later suspension waits for a smaller id |

## Left out

- ImportRun.EstimateLayout: asks that a grid cell that spans tracks does not start before the first one, because the code then writes outside its tables and has no defined behaviour.
- ChildRects.ComputeChildRects: asks that every grid cell starts and ends within the tables of track positions, for the same reason; ImportRun.EmitLayoutContent asks it of the layouts it places and measurable children of those it measures.
- Segments.ShrinkSegmentsToFit: does not model the 32-bit product of remaining excess and slack; pixels are unbounded.
- GridLayout.GridDisjoint: spans of at least one cell and spacing that is not negative, as the format intends.
- TreeRoom.MoreRoomFits: the children of splitters and widgets placed by their own geometry are not followed.
- TreeFit.TreeFits: speaks of boxes and grids, since a layout of an unknown class measures nothing; TreeRoom.MoreRoomFits covers those as well.
- FairShrink.ShrunkProportional: the bound is not claimed to be the smallest possible.
- Spacers.SpacerSaveLoad: sizes are 32-bit integers, as in the code.
- FormCanvas.Canvas.ReparentDesignWidget: clamping of the final position, attaching to and detaching from layouts, the handles of a splitter and repaint requests are not modelled.
- FormCanvas.Canvas.Delete: children are freed in some order, not necessarily the order of the child list; signals sent on the way are not modelled.
- FormCanvas.Canvas.Clear: the form size and the set of hooked widgets that the document resets are not modelled.
- FormCanvas.Canvas.FindContainerAt: rectangles in canvas coordinates and visibility are given, not computed.
- FreshNames.NameSource.NextObjectName: lower-casing is that of ASCII letters, and the counter does not wrap around.
- DropIndex.ComputeLayoutInsertIndex: rectangles in canvas coordinates are given, and a missing layout, parent or canvas is not a case.
- DocWriter.SaveOrder: the live object tree is a snapshot value with unique ids; cells hold listed children of their widget, one cell each, at different places, as the grid layout sees to, so a cell that holds a widget outside the document is not modelled; what is written per widget (geometry, properties, attributes) is not modelled, only which widgets are written, below which and in which order.
- SpacerReload.InfoFromWidget: the loader that turns the properties of a node into those of a live widget is not modelled; a property is taken to be the text of the last element of its name.
- DocWriter.ForestBuilder.WriteNode: a spacer widget in a layout is written without its children; such widgets have none.
- PingPong.Client.ResumeFiber: publishing and delivery are not connected by a model of the shared-memory channel; the network is any sequence of deliveries. Handlers run on the loop of the client, one at a time. Statistics printed at the end are not modelled.
- CommandStack.Stack.PushApplied: commands are abstract; each must be taken back by its undo on the document it was applied to. The create and delete commands of the designer hold raw widgets and are not modelled.
- The parser's cursor is the remaining input, and input is a sequence of characters rather than bytes.
- The elements that the importer writes for a widget (class mapping, properties, tabs, geometry overrides) and the text of a written spacer are left out; the order and the rectangles of the elements are modelled.
- Painting, menus, drag and drop, dialogs, files, clipboard, style sheets and the other modes of the monitor are left out: user interface, input and output.

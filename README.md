# EduMaster front end: a Dafny model of its page logic

EduMaster is a React learning-platform site. This project models the logic that sits
behind its pages and components:

- the course catalogue's category, level and search filters, plus its badges;
- the blog's filters, featured, recent and grid posts;
- the course carousel and the testimonial rotator;
- the animated counters and progress bars, which ramp from 0 to a target in 60 steps;
- the loading screen;
- the pricing page's monthly and annual prices;
- the contact form.

Each source file becomes one module, and the modules that several pages share cover:

- `Wrappers`: the `Option` type;
- `JsMath`: JavaScript's `Math.round` and `Math.min` on exact reals;
- `Text`: ASCII `toLowerCase` and `String.prototype.includes`;
- `Catalog`: `Array.prototype.filter` and `slice`, plus the subsequence order;
- `Cycle`: the wrapping counters, pagination dots and strip offset of both rotators;
- `Ramp`: the clamped 60-step ramp and the bookkeeping of its live intervals.

Pure expressions (the filters, prices, chart widths) are functions with lemmas.
Components that change state are classes whose methods change their fields:

- `Carousel.Slideshow` and `Testimonials.Rotator`;
- `Stats.StatsPanel` and `Progress.Dashboard`;
- `Loader.LoaderScreen`, `Pricing.PricingPage` and `Contact.ContactForm`.

Timer callbacks, effects and event handlers become explicit method calls.
`isVisible`, which comes from the scroll-animation hook, is an input.

## Model

| member | source | states |
|---|---|---|
| Catalog.Filter | project/src/pages/Courses.tsx:124-131 | an element is kept exactly when it is in the list and passes the predicate, and the result is never longer than the list |
| Catalog.FilterIsSubsequence | project/src/pages/Courses.tsx:124-131 | filtering keeps the kept elements in their original order and adds none |
| Catalog.FilterCounts | project/src/pages/Courses.tsx:124-131 | every copy of a passing element is kept and every copy of a failing one dropped; with the subsequence lemma this fixes the result of `filter` exactly |
| Catalog.FilterIdempotent | project/src/pages/Courses.tsx:124-131 | filtering twice with the same predicate is filtering once |
| Catalog.Slice | project/src/pages/Blog.tsx:103 | `slice(start, end)` with clamped bounds: its length and each of its elements come from the clamped window |
| Text.Lower | project/src/pages/Courses.tsx:127-128 | lower-casing keeps the length and lower-cases each character |
| Text.LowerIdempotent | project/src/pages/Courses.tsx:127-128 | lower-casing twice is lower-casing once |
| Text.IncludesEmpty | project/src/pages/Courses.tsx:127-128 | every text includes the empty search term, so an empty search matches everything |
| Courses.FilteredCourses | project/src/pages/Courses.tsx:124-131 | a course is listed exactly when it is in the catalogue and passes the category, level and search tests |
| Courses.ShownIff | project/src/pages/Courses.tsx:125-130 | both directions: listed if and only if category (or "All"), level (or "All") and title-or-instructor search all match |
| Courses.FilteredIsSubsequence | project/src/pages/Courses.tsx:124-131 | the listed courses are an order-preserving subsequence of the catalogue |
| Courses.FilteredCounts | project/src/pages/Courses.tsx:124-131 | the listed courses hold each matching course as often as the catalogue does, and no other course |
| Courses.DefaultsShowAll | project/src/pages/Courses.tsx:118-131 | with "All", "All" and an empty search the whole catalogue is listed, in order |
| Courses.SearchCaseInsensitive | project/src/pages/Courses.tsx:127-128 | two search terms with the same lower-case form list the same courses |
| Courses.SearchByLowered | project/src/pages/Courses.tsx:127-128 | searching for the lower-cased term lists the same courses as the term itself |
| Courses.FilterIdempotent | project/src/pages/Courses.tsx:124-131 | filtering the listed courses again with the same controls changes nothing |
| Courses.NoResultsIff | project/src/pages/Courses.tsx:294-300 | "No courses found" appears if and only if no course passes the filter |
| Courses.LevelTone | project/src/pages/Courses.tsx:223-227 | the level badge is green exactly for "Beginner", yellow exactly for "Intermediate", red for every other level |
| Courses.SaveBadge | project/src/pages/Courses.tsx:231-233 | the "Save" badge appears exactly when a non-zero original price is present, and its amount plus the price is the original price |
| Courses.SeedSavings | project/src/pages/Courses.tsx:21-112 | every seed course saves exactly 100 |
| Courses.VisibleFeatures | project/src/pages/Courses.tsx:266 | a card shows a prefix of the features: all of them when there are fewer than three, otherwise the first three |
| Courses.SeedCategoryDesign | project/src/pages/Courses.tsx:68-131 | category "Design" lists exactly course 4 |
| Courses.SeedSearchChen | project/src/pages/Courses.tsx:53-131 | searching "chen" lists exactly course 3 (instructor Mike Chen) |
| Courses.SeedSearchChenCapitals | project/src/pages/Courses.tsx:127-128 | searching "CHEN" lists exactly what "chen" lists |
| Blog.FilteredPosts | project/src/pages/Blog.tsx:95-100 | a post passes exactly when its category matches (or "All") and its title or excerpt contains the lower-cased term |
| Blog.FilteredIsSubsequence | project/src/pages/Blog.tsx:95-100 | the passing posts are an order-preserving subsequence of the posts |
| Blog.FilteredCounts | project/src/pages/Blog.tsx:95-100 | the passing posts hold each matching post as often as the list does, and no other post |
| Blog.DefaultsShowAll | project/src/pages/Blog.tsx:92-100 | with "All" and an empty search every post passes, in order |
| Blog.SearchCaseInsensitive | project/src/pages/Blog.tsx:97-98 | two search terms with the same lower-case form give the same posts |
| Blog.SearchIgnoresAuthorAndTags | project/src/pages/Blog.tsx:97-98 | changing a post's author or tags never changes whether it matches |
| Blog.AuthorNotSearched | project/src/pages/Blog.tsx:97-98 | post 2 with its title and excerpt emptied is found only by an empty search, even though its author is "Dr. Michael Chen" |
| Blog.FilterIdempotent | project/src/pages/Blog.tsx:95-100 | filtering the passing posts again changes nothing |
| Blog.RecentPosts | project/src/pages/Blog.tsx:103 | the recent posts are positions 1 to 3 of the unfiltered list, or fewer when the list is shorter |
| Blog.SeedFeaturedAndRecent | project/src/pages/Blog.tsx:102-103 | the featured post is post 1 and the recent posts are posts 2, 3 and 4, whatever the filter |
| Blog.GridPosts | project/src/pages/Blog.tsx:215 | the grid as written: all passing posts but the first, so its length is one less than theirs (never below 0) |
| Blog.NoArticlesIff | project/src/pages/Blog.tsx:271-277 | "No articles found" appears if and only if no post passes the filter |
| Blog.SingleMatchShowsNothing | project/src/pages/Blog.tsx:215-277 | with exactly one passing post the grid is empty and no message is shown |
| Blog.VisibleTags | project/src/pages/Blog.tsx:249 | a card shows a prefix of the tags: all of them when there are fewer than three, otherwise the first three |
| Blog.DesignMatchesOnly | project/src/pages/Blog.tsx:52-100 | category "Design" is passed by post 4 alone |
| Blog.SeedDesignPostHidden | project/src/pages/Blog.tsx:215 | with category "Design" the sole match is not the featured post, yet the grid is empty and no message is shown |
| Blog.GridPostsWithoutFeatured | project/src/pages/Blog.tsx:215 | corrected grid: a post is in it exactly when it passes the filter and is not the featured post |
| Blog.WithoutFeaturedShowsEveryMatch | project/src/pages/Blog.tsx:215 | with the corrected grid every passing post is shown, in the grid or as the featured post; the featured post is never repeated; the order is kept |
| Blog.WithoutFeaturedAgreesWhenFeaturedLeads | project/src/pages/Blog.tsx:215 | when the passing posts start with the featured post and hold it nowhere else, the corrected grid equals the grid as written |
| Blog.WithoutFeaturedAgreesOnDefaults | project/src/pages/Blog.tsx:215 | with the default controls the corrected grid equals the grid as written |
| Blog.WithoutFeaturedSingle | project/src/pages/Blog.tsx:215 | a lone match other than the featured post is exactly what the corrected grid shows |
| Blog.WithoutFeaturedShowsDesignPost | project/src/pages/Blog.tsx:215 | with category "Design" the corrected grid shows post 4 |
| Cycle.AdvanceIsMod | project/src/components/Carousel.tsx:77-79 | k steps of `(i + 1) % n` from i land on `(i + k) % n` |
| Cycle.PredSuccInverse | project/src/components/Carousel.tsx:77-83 | the previous-slide step undoes the next-slide step and the other way round |
| Cycle.ExactlyOneDot | project/src/components/Carousel.tsx:152-158 | exactly one pagination dot is active |
| Carousel.Slideshow.constructor | project/src/components/Carousel.tsx:64-65 | the carousel starts on slide 0 with autoplay on |
| Carousel.Slideshow.NextSlide | project/src/components/Carousel.tsx:77-79 | the index becomes `(i + 1) % 4`, stays a slide index, and autoplay is unchanged |
| Carousel.Slideshow.PrevSlide | project/src/components/Carousel.tsx:81-83 | the index becomes `(i - 1 + 4) % 4`, so 0 goes to 3; autoplay is unchanged |
| Carousel.Slideshow.GoToSlide | project/src/components/Carousel.tsx:85-87 | a dot sets the index to its own position; autoplay is unchanged |
| Carousel.Slideshow.IntervalElapsed | project/src/components/Carousel.tsx:67-75 | an elapsed period advances the slide exactly when autoplay is on |
| Carousel.Slideshow.MouseEnter | project/src/components/Carousel.tsx:92 | hovering pauses autoplay and keeps the slide |
| Carousel.Slideshow.MouseLeave | project/src/components/Carousel.tsx:93 | leaving resumes autoplay and keeps the slide |
| Carousel.Slideshow.DotStates | project/src/components/Carousel.tsx:152-158 | one dot per slide, the current one active and no other |
| Carousel.Slideshow.TrackOffset | project/src/components/Carousel.tsx:97 | the strip is shifted by `currentIndex * 100` percent: whole slide widths, never past the last slide |
| Carousel.Slideshow.CurrentTitle | project/src/components/Carousel.tsx:97-100 | the slide in view is the one the strip's shift selects, so its title is one of the four course titles |
| Carousel.Wraparound | project/src/components/Carousel.tsx:77-83 | four steps forward return to the start; back from slide 0 is slide 3 |
| Carousel.PausedStaysPut | project/src/components/Carousel.tsx:67-75 | while paused, any number of periods leaves the slide where it is |
| Testimonials.Rotator.constructor | project/src/components/Testimonials.tsx:47 | the rotator starts on testimonial 0 |
| Testimonials.Rotator.Tick | project/src/components/Testimonials.tsx:49-55 | every period moves to `(i + 1) % 3`, unconditionally |
| Testimonials.Rotator.SelectDot | project/src/components/Testimonials.tsx:115-118 | a dot sets the index to its own position |
| Testimonials.Rotator.DotStates | project/src/components/Testimonials.tsx:119-121 | one dot per testimonial, the current one active and no other |
| Testimonials.Rotator.TrackOffset | project/src/components/Testimonials.tsx:75 | the strip is shifted by whole widths, `currentIndex * 100` percent |
| Testimonials.ThreeTicksReturn | project/src/components/Testimonials.tsx:51 | three periods return to the starting testimonial |
| Testimonials.Stars | project/src/components/Testimonials.tsx:102 | as many stars as the rating |
| Testimonials.SeedStars | project/src/components/Testimonials.tsx:15-43 | every seed testimonial shows five stars |
| JsMath.Min | project/src/components/Stats.tsx:33 | `Math.min` is one of its arguments and no larger than either |
| JsMath.Round | project/src/components/Stats.tsx:37 | `Math.round(x)` is the integer nearest x, halves rounding up |
| JsMath.RoundMonotone | project/src/components/Stats.tsx:37 | rounding keeps the order |
| Ramp.ValueAtStart | project/src/components/Stats.tsx:29-33 | before any step the ramp is at 0 |
| Ramp.ValueBounds | project/src/components/Stats.tsx:33 | `min(increment * k, target)` stays within 0 and the target |
| Ramp.ValueMonotone | project/src/components/Stats.tsx:33 | the ramp never goes down as the step grows |
| Ramp.ValueFinal | project/src/components/Stats.tsx:33 | from step 60 on, the ramp is exactly the target |
| Ramp.ValueBeforeFinal | project/src/components/Stats.tsx:33 | a positive target is not reached before step 60 |
| Ramp.DisplayBounds | project/src/components/Stats.tsx:37 | a rounded counter stays within 0 and its whole-number target |
| Ramp.DisplayMonotone | project/src/components/Stats.tsx:37 | a rounded counter never goes down |
| Ramp.DisplayFinal | project/src/components/Stats.tsx:33-37 | a rounded counter ends exactly on its whole-number target |
| Ramp.Launch | project/src/components/Stats.tsx:25-31 | the effect starts one interval per item, each at step 0 for its own slot |
| Ramp.AfterFiring | project/src/components/Stats.tsx:31-44 | a firing interval takes one step, and it is cleared once that step reaches 60; the others are untouched |
| Ramp.FiringUsesOneTick | project/src/components/Stats.tsx:41-43 | each firing uses up exactly one remaining tick, so every interval stops |
| Ramp.LaunchRemaining | project/src/components/Stats.tsx:25-44 | freshly started intervals have 60 ticks each to run |
| Stats.StatsPanel.constructor | project/src/components/Stats.tsx:20 | every counter starts at 0, with no interval running |
| Stats.StatsPanel.OnVisibility | project/src/components/Stats.tsx:22-46 | when visible, one interval per statistic is added at step 0; when hidden, nothing changes; earlier intervals are not cleared |
| Stats.StatsPanel.Tick | project/src/components/Stats.tsx:31-44 | a firing writes only its own counter: the rounded ramp at its next step; the interval list wins or loses exactly that interval; counters stay within 0 and their targets |
| Stats.Written | project/src/components/Stats.tsx:35-39 | a firing sets its own slot to the rounded ramp value and keeps every other slot |
| Stats.SettlesAfterFiring | project/src/components/Stats.tsx:31-44 | while the intervals run undisturbed (no two writing one counter), every counter shows the ramp at its interval's step, or its final value once that interval is cleared, and every firing keeps this so |
| Stats.ShownAtLaunch | project/src/components/Stats.tsx:20-29 | freshly started intervals over zeroed counters are in that agreement |
| Stats.AnimateFromZero | project/src/components/Stats.tsx:22-46 | from the initial state, once visible and after all intervals have fired out, each counter shows exactly its statistic's value and no interval is left |
| Progress.BarTarget | project/src/pages/Progress.tsx:55 | the bar target `value / maxValue * 100` is never negative, at most 100 exactly when the goal is not exceeded, and 100 exactly when it is met |
| Progress.SeedGoalsWithin | project/src/pages/Progress.tsx:23-28 | every seed goal has a positive maximum, so every bar targets a width within 0 and 100 |
| Progress.SeedBarTargets | project/src/pages/Progress.tsx:23-55 | the seed targets are 200/3, 78, 80 and 60 percent |
| Progress.GoalTarget | project/src/pages/Progress.tsx:55 | each seed bar's target lies within 0 and 100 percent |
| Progress.MaxHours | project/src/pages/Progress.tsx:46 | `maxHours` is one of the months' hours and no smaller than any |
| Progress.WidthWithin | project/src/pages/Progress.tsx:191 | a visible chart bar is within 0 and 100 percent wide, and exactly 100 when it is the maximum |
| Progress.ChartWidthsWithin | project/src/pages/Progress.tsx:191 | every chart bar is within 0 and 100 percent; once visible, a bar is full width if and only if its month is a busiest one, and some month is |
| Progress.SeedChart | project/src/pages/Progress.tsx:37-46 | in the seed chart the maximum is 70 hours, April's bar is full width and March's is 25/70 of it |
| Progress.Dashboard.constructor | project/src/pages/Progress.tsx:20-21 | both state arrays start at zero, with no interval running |
| Progress.Dashboard.OnVisibility | project/src/pages/Progress.tsx:48-97 | when visible, one bar interval per goal and one counter interval per counter are added at step 0; when hidden, nothing starts and nothing changes |
| Progress.Dashboard.BarTick | project/src/pages/Progress.tsx:59-72 | a bar firing sets only its own bar, to the unrounded ramp value at the next step, and clears the interval after step 60; bars stay within 0 and their targets |
| Progress.Dashboard.StatTick | project/src/pages/Progress.tsx:82-95 | a counter firing sets only its own counter, to the rounded ramp value at the next step, and clears the interval after step 60 |
| Progress.Dashboard.ShownPercent | project/src/pages/Progress.tsx:165 | the printed percentage `Math.round(animatedProgress[i])` lies within 0 and the rounded target, itself at most 100 |
| Progress.HiddenStaysStill | project/src/pages/Progress.tsx:48-49 | while hidden, any number of effect runs starts nothing and changes nothing |
| Loader.NextProgress | project/src/components/Loader.tsx:17-20 | full stays at 100; anything below 100 grows by 2 |
| Loader.ProgressClosedForm | project/src/components/Loader.tsx:15-24 | after k intervals the bar is at `min(2k, 100)` |
| Loader.ProgressEvenWithin | project/src/components/Loader.tsx:5-20 | the bar is always an even percentage within 0 and 100 |
| Loader.ProgressMonotone | project/src/components/Loader.tsx:17-20 | the bar never shrinks |
| Loader.FullExactlyFrom50 | project/src/components/Loader.tsx:17-20 | the bar is full if and only if at least 50 intervals have fired |
| Loader.NextKeepsEvenWithin | project/src/components/Loader.tsx:17-20 | each interval keeps the bar even and within 0 and 100, and 100 is its only fixed point |
| Loader.LoaderScreen.constructor | project/src/components/Loader.tsx:5-6 | the bar and the message index start at 0 |
| Loader.LoaderScreen.ProgressTick | project/src/components/Loader.tsx:16-21 | the 60 ms interval applies the update; the bar stays even, within 0 and 100, and does not shrink; the message is unchanged |
| Loader.LoaderScreen.StatusTick | project/src/components/Loader.tsx:27-29 | the 750 ms interval moves the message to `(i + 1) % 4`; the bar is unchanged |
| Loader.LoaderScreen.StatusText | project/src/components/Loader.tsx:54 | the status line is always one of the four messages |
| Loader.StatusReturnsAfterFour | project/src/components/Loader.tsx:28 | four status intervals return to the starting message |
| Loader.FillFromStart | project/src/components/Loader.tsx:15-24 | a fresh loader is full after 50 intervals and stays full after any number more |
| Pricing.Billed | project/src/pages/Pricing.tsx:130-133 | `getPrice`: monthly the amount itself, annually a whole number within half a unit of ten times the amount |
| Pricing.GetOriginalPrice | project/src/pages/Pricing.tsx:135-139 | no original price exactly when it is absent or 0; otherwise it is billed like the price |
| Pricing.PeriodLabel | project/src/pages/Pricing.tsx:226 | the period reads "year" when annual and the plan's own period otherwise |
| Pricing.AnnualIsTenfold | project/src/pages/Pricing.tsx:131 | a whole-number amount billed annually is exactly ten times the amount |
| Pricing.BilledMonotone | project/src/pages/Pricing.tsx:130-139 | billing keeps the order of amounts in both modes |
| Pricing.DiscountShownInBothModes | project/src/pages/Pricing.tsx:130-139 | a plan with whole prices and an original above its price shows a struck-through price above the current one, monthly and annually |
| Pricing.SeedPlans | project/src/pages/Pricing.tsx:20-139 | Basic has no original price; Professional and Enterprise show one above the price in both modes; annual prices are 290, 590 and 990 |
| Pricing.PricingPage.constructor | project/src/pages/Pricing.tsx:105 | billing starts monthly |
| Pricing.PricingPage.ToggleBilling | project/src/pages/Pricing.tsx:158 | a click flips the billing mode |
| Pricing.PricingPage.ShownPrice | project/src/pages/Pricing.tsx:223 | the shown price is the plan's price monthly; annually it is the whole number within half a unit of ten times the price, which is `Math.round(price * 10)` |
| Pricing.TwoTogglesRestore | project/src/pages/Pricing.tsx:158 | two clicks restore the billing mode and the price shown |
| Contact.Set | project/src/pages/Contact.tsx:18-21 | the named field takes the new value and every other field keeps its value |
| Contact.FieldsDetermine | project/src/pages/Contact.tsx:10-15 | a form record is determined by its four fields |
| Contact.BlankIsEmpty | project/src/pages/Contact.tsx:10-15 | every field of the initial form is empty |
| Contact.SetTwice | project/src/pages/Contact.tsx:17-22 | the later of two edits to one field wins |
| Contact.SetCommutes | project/src/pages/Contact.tsx:18-21 | edits to different fields do not interfere, in either order |
| Contact.SetUnchanged | project/src/pages/Contact.tsx:18-21 | writing a field's own value back changes nothing |
| Contact.ContactForm.constructor | project/src/pages/Contact.tsx:10-15 | the form starts with all four fields empty |
| Contact.ContactForm.HandleInputChange | project/src/pages/Contact.tsx:17-22 | the input's field takes the new value and every other field is unchanged |
| Contact.ContactForm.HandleSubmit | project/src/pages/Contact.tsx:24-30 | after submitting, all four fields are empty, whatever they held |
| Contact.FillIn | project/src/pages/Contact.tsx:17-22 | typing into each input fills the form with exactly what was typed, whatever it held before |

## Left out

- Timing: the periods are not modelled (2000/60 ms for the ramps, 5000 ms for the rotators, 60 ms and 750 ms for the loader). Each interval callback is a method call, and the intervals may fire in any order (`Tick(t)` fires any live interval `t`).
- Carousel.Slideshow.IntervalElapsed: resuming autoplay creates a new interval, which restarts its five-second phase. The model has no phase and only says whether a period advances the slide.
- Cleanup: the Stats and Progress effects return no cleanup, so repeated visibility changes add intervals. The model keeps such intervals. Stats.AnimateFromZero covers only the first launch from the initial state.
- Progress.Dashboard: a whole run to completion is not stated as a separate theorem for the bars and counters here. It follows per firing from `BarTick`, `StatTick`, `Ramp.ValueFinal` and `Ramp.FiringUsesOneTick`, as `Stats.AnimateFromZero` shows for the Stats panel.
- Unmounting the carousel, the testimonials and the loader clears their intervals. Destruction is not modelled.
- Floating point: all arithmetic uses exact reals. `increment * currentStep` may differ from the exact value in its last bits.
- Text: lower-casing is ASCII only, so Unicode case mapping is not modelled.
- React rendering: `{course.originalPrice && …}` and `{getOriginalPrice(plan) && …}` render the text "0" when the value is 0. The model treats 0 as "no badge". NaN, the other falsy number, is not modelled.
- Progress.MaxHours requires a non-empty list, because `Math.max()` of nothing is -Infinity. The chart is a constant six-month list.
- Progress.BarTarget requires `maxValue > 0`, because division by 0 gives Infinity or NaN. Every seed goal has a positive maximum.
- Carousel.Slideshow.GoToSlide and Testimonials.Rotator.SelectDot require a valid index, because the dots pass only their own positions.
- Contact.Set takes one of the four fields. The computed key `[e.target.name]` could add any property, but the form has only four named inputs.
- Contact: `preventDefault`, `console.log`, `alert`, and the browser's `required` and e-mail checks are not modelled.
- The scroll-animation and loader hooks are not part of this model. `isVisible` is an input, with no latch or re-arm behaviour.
- Not modelled: the ripple effect and its random ids, colours and sizes; the header, footer, feature, home, about and instructor pages; icons, images, CSS classes and transition delays.
- Course and post fields that no logic reads (rating, students, duration, image, date, read time) are not modelled.

## Findings

| source | as written | input that shows it | evidently intended | confidence | as-written member | corrected member |
|---|---|---|---|---|---|---|
| project/src/pages/Blog.tsx:215 | the grid renders `filteredPosts.slice(1)`, dropping the first passing post as if it were the featured post | category "Design": only post 4 passes; it is not the featured post, the grid is empty and "No articles found" stays hidden, so the match is shown nowhere | the grid shows every passing post except the featured post, which is already shown above it | medium; not executed | Blog.SeedDesignPostHidden | Blog.GridPostsWithoutFeatured |

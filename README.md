# Youth employment mission apps: a verified model

This Dafny project models the logic inside three Streamlit apps of a youth
employment mission:

- **Employment matching** (`apps/app-matching-emploi.py`). It scores a young
  person against a job offer on six weighted criteria. The weights are skills
  40, sector 20, contract 15, qualification 10, experience 10 and location 5.
  The sum is rounded half to even. The app sorts the scored pairs by
  descending score, shows the top five as colour-banded cards and the top ten
  as a chart. It also has multi-select list filters (empty selection = no
  filter) and the follow-up counters of introductions.
- **Job-search journal** (`apps/job-search-learning-journal.py`). It covers:
  - journal entries whose learnings raise skill levels through keywords;
  - job applications with a status history, a status filter and search, and
    the status-rank sort;
  - objectives with action steps and a progress percentage;
  - the self-assessment save;
  - the "click again to confirm" delete buttons.
- **Partner CRM** (`apps/crm-app.py`). It covers:
  - the French date formatter and the dashboard statistics with the
    conversion rate;
  - the max+1 id rule;
  - the comma-separated participant list of events;
  - the column check of CSV imports;
  - the forms that add or edit companies, interactions, events and offers;
  - the sidebar notification counter;
  - the month-calendar loop.

Pure code is modelled as functions and lemmas: the scorer, filters, sorts,
formatters and statistics. State that the apps change in place is modelled as
classes with `modifies` clauses:
- `JournalState.Journal` holds the journal's lists, its skills dictionary and
  its confirmation markers.
- `CrmStore.Crm` holds the four CRM tables.
- `CrmNotifications.NotificationCenter` holds the notification list and its
  counter.

Loops in the source are methods with loop invariants:
- the scoring loops that build `match_results`;
- the keyword loop over the skills;
- the step fields of an objective;
- the linked-skill log loop;
- the calendar's week loop.

Each method is proved against a specification function, and the properties
of those functions are proved as lemmas.

The model makes these choices:
- **Scores** are computed on exact reals. Since the weights add up to 100,
  the percentage is the raw sum.
- **Skill levels** are kept in half-units 0..10, so 0.5 is one unit.
- **Dates** are `Dates.Date` values or the stored text.
- **Clock readings** (`datetime.now()`, "thirty days ago") are parameters.
- **`calendar.monthrange`** is replaced by two parameters: the first weekday
  and the length of the month.

## Model

| member | source | states |
|---|---|---|
| Scoring.QualificationRank | apps/app-matching-emploi.py:204-206 | the position of a label on the five-step ladder, and 0 for a label the ladder does not know |
| Scoring.SkillCredit | apps/app-matching-emploi.py:186-187 | the skill credit lies between 0 and 40; the `max(len, 1)` guard means it is always defined |
| Scoring.RawScore | apps/app-matching-emploi.py:181-224 | the sum of the six credits lies between 0 and `max_score` |
| Scoring.PercentageIsRawScore | apps/app-matching-emploi.py:183-226 | `max_score` is always 100, so the percentage equals the raw score and lies in [0, 100] |
| Scoring.RoundHalfEven | apps/app-matching-emploi.py:227 | Python's `round`: the result is within 1/2 of the input, and on a tie it is even |
| Scoring.RoundHalfEvenMonotone | apps/app-matching-emploi.py:227 | rounding preserves order |
| Scoring.MatchScore | apps/app-matching-emploi.py:181-227 | the score is an integer in [0, 100], within 1/2 of the raw weighted sum |
| Scoring.PerfectMatch | apps/app-matching-emploi.py:186-227 | a person who has every required skill (listed once each, at least one) and meets the five other criteria scores 100 |
| Scoring.TotalMismatch | apps/app-matching-emploi.py:186-227 | a person with none of the required skills who fails every other criterion scores 0 |
| Scoring.EmptyRequiredSkills | apps/app-matching-emploi.py:186-187 | an offer without required skills gives skill credit 0, not 40, so the score is at most 60 |
| Scoring.QualificationCredit | apps/app-matching-emploi.py:204-209 | qualification credit iff the person's rank is at least the offer's (equal counts); an unknown label on either side stands at rank 0 |
| Scoring.SkillCreditMonotone | apps/app-matching-emploi.py:186-187 | a person with a superset of skills never gets less skill credit |
| Scoring.AddingSkillsNeverLowersScore | apps/app-matching-emploi.py:186-188 | adding skills to a person without removing any never lowers the score |
| Scoring.BandThresholds | apps/app-matching-emploi.py:588 | high ("match-high") iff score ≥ 70, medium ("match-medium") iff 40 ≤ score < 70, low ("match-low") iff score < 40; a higher score never gets a lower band (same rule at lines 697 and 797) |
| Seqs.KeepIfSelected | apps/app-matching-emploi.py:483-496 | an empty selection leaves the rows unchanged; otherwise exactly the rows whose field is selected stay, as a subsequence |
| Seqs.KeepIfSelectedIsFilter | apps/app-matching-emploi.py:483-496 | the multi-select filter equals filtering by "nothing selected or value selected" |
| MatchFilters.SearchYoungPeople | apps/app-matching-emploi.py:387-405 | a person is shown iff the status, age range, qualification and preferred-sector filters all hold; the result is a subsequence |
| MatchFilters.SearchJobOffers | apps/app-matching-emploi.py:481-496 | an offer is shown iff it passes all five multi-select filters; the result is a subsequence |
| MatchFilters.OffersToScore | apps/app-matching-emploi.py:665-672 | exactly the open offers whose sector and contract are selected, as a subsequence |
| MatchFilters.OffersToChooseFrom | apps/app-matching-emploi.py:731-740 | when some offer is open only open offers stay, otherwise all; then the sector and contract filters; a subsequence |
| MatchFilters.CandidatesToScore | apps/app-matching-emploi.py:765-770 | exactly the actively searching people whose status passes the sidebar filter, as a subsequence |
| MatchRanking.ByDescendingScore | apps/app-matching-emploi.py:689 | the results in non-increasing score order, as a permutation of the input |
| MatchRanking.RankOffers | apps/app-matching-emploi.py:674-689 | the scoring loop and sort: every offer paired with its score exactly once (a permutation), in non-increasing order, each score in [0, 100] |
| MatchRanking.RankedOffers | apps/app-matching-emploi.py:674-689 | every entry of a ranking of the scored offers is an offer of the list with its own match score |
| MatchRanking.RankCandidates | apps/app-matching-emploi.py:773-789 | the same for every candidate of an offer |
| MatchRanking.RankedCandidates | apps/app-matching-emploi.py:773-789 | every entry of a ranking of the scored candidates is a person of the list with their own match score |
| MatchRanking.Top | apps/app-matching-emploi.py:695 | `head(n)` has min(n, length) entries |
| MatchRanking.TopHoldsTheBest | apps/app-matching-emploi.py:695 | the head of a ranking is its prefix, is itself ranked, and scores at least as much as every entry left out |
| MatchRanking.CardsLeadTheChart | apps/app-matching-emploi.py:586-605 | the five cards are the first five of the ten entries the chart draws, and no entry left off the chart outscores a bar |
| FollowUp.FilterIntroductions | apps/app-matching-emploi.py:917-934 | an introduction stays iff its status is selected, its date lies in the chosen period and the search term is found; a subsequence |
| FollowUp.SearchFindsOwnName | apps/app-matching-emploi.py:929-934 | searching for a person's name keeps their introductions |
| FollowUp.Summarize | apps/app-matching-emploi.py:944-947 | the total is the list length; hired counts the "Embauche" rows, ongoing the rows in the three interview stages, rejected the two refusals; their sum never exceeds the total |
| FollowUp.SummaryPartitions | apps/app-matching-emploi.py:944-947 | when every status is one of the six stages (line 843), hired + ongoing + rejected equals the total |
| Sorting.SortByKey | apps/job-search-learning-journal.py:718 | `sorted(..., key=...)`: sorted by the key and a permutation of the input |
| Sorting.SortIsStable | apps/job-search-learning-journal.py:718 | rows with equal keys keep their relative order |
| Sorting.SortSortedIsIdentity | apps/job-search-learning-journal.py:718 | sorting an already sorted list changes nothing |
| JournalSkills.SkillOrderListsEachSkillOnce | apps/job-search-learning-journal.py:482-490 | the keyword table lists each of the seven skills exactly once |
| JournalSkills.Bump | apps/job-search-learning-journal.py:495 | `min(5, level + 0.5)`: one half-unit up below 5, stays at 5, never above 5 |
| JournalSkills.LearningEffect | apps/job-search-learning-journal.py:493-500 | a skill whose keyword occurs in the lower-cased learnings moves up by half a point (capped at 5) and gets exactly one log line; a skill without a hit is unchanged; no level exceeds 5 |
| JournalSkills.SaveSkillAsWrittenLogsOnlyNotes | apps/job-search-learning-journal.py:1080-1088 | as written, the level becomes the new one and a log line is added iff a note was typed |
| JournalSkills.SaveSkillAsWrittenMissesLevelChange | apps/job-search-learning-journal.py:1080-1088 | as written, raising a level from 0 to 2.5 without a note leaves the history empty |
| JournalSkills.SaveSkill | apps/job-search-learning-journal.py:1080-1088 | the rule as intended: the level becomes the new one, and a log line is added iff the level changed or a note was typed |
| JournalRecords.NewEntry | apps/job-search-learning-journal.py:463-477 | an entry is made iff the title and the content are non-empty, and it keeps them |
| JournalRecords.MoodThresholds | apps/job-search-learning-journal.py:566-572 | red iff ≤ 3, yellow iff 4..7, green iff > 7; a higher score never shows a worse colour |
| JournalRecords.NewApplication | apps/job-search-learning-journal.py:634-654 | an application is made iff company and position are non-empty; it keeps all twelve fields of the form, and its history starts with one event dated on the application day, carrying the chosen status and the comment "Candidature " + the lower-cased status |
| JournalRecords.ActiveCount | apps/job-search-learning-journal.py:180 | the running applications are those neither refused nor abandoned; at most the total |
| JournalRecords.ActiveCountComplement | apps/job-search-learning-journal.py:180 | running + (refused or abandoned) = total |
| JournalRecords.FilterApplications | apps/job-search-learning-journal.py:689-695 | shown iff the status is chosen (when some are) and the term occurs, ignoring case, in company or position (when given); a subsequence |
| JournalRecords.SearchIgnoresCase | apps/job-search-learning-journal.py:692-695 | a company's own name, in any case, finds its application |
| JournalRecords.StatusRank | apps/job-search-learning-journal.py:708-718 | the position of a known status in the eight-status order, 99 otherwise |
| JournalRecords.SortByStatus | apps/job-search-learning-journal.py:707-718 | sorted by rank, a permutation, with every known status before every unknown one |
| JournalRecords.SortByStatusIsStable | apps/job-search-learning-journal.py:718 | applications of equal rank keep their order |
| JournalRecords.WithStatus | apps/job-search-learning-journal.py:822-831 | the status becomes the new one, the history (created if missing) gets one event with that status and the typed or default comment, nothing else changes |
| JournalRecords.WithStatusGrowsHistory | apps/job-search-learning-journal.py:827-831 | each status update lengthens the history by one and keeps the earlier events |
| JournalRecords.CollectSteps | apps/job-search-learning-journal.py:1300-1303 | the loop over the five step fields makes one not-done step per filled field, in field order |
| JournalRecords.NewObjective | apps/job-search-learning-journal.py:1312-1324 | an objective is made iff title, description and steps are non-empty; it starts "En cours" and carries the form's title, description, category, deadline, priority, linked skills, steps, resources and creation date |
| JournalRecords.Completed | apps/job-search-learning-journal.py:1138 | the finished steps are at most all the steps |
| JournalRecords.CompletedAll | apps/job-search-learning-journal.py:1138 | all steps count iff all are done; none count iff none are done |
| JournalRecords.CompletedAfterToggle | apps/job-search-learning-journal.py:1198-1199 | ticking a step adds one finished step, unticking removes one, leaving it as it was changes nothing |
| JournalRecords.Progress | apps/job-search-learning-journal.py:1137-1141 | the ratio lies in [0, 1]; it is 1 iff there are steps and all are done; 0 iff none is done (including no steps) |
| JournalRecords.ProgressPercent | apps/job-search-learning-journal.py:1155 | `int(progression * 100)` lies in [0, 100], is 100 iff all steps are done, and is the ratio cut down |
| JournalState.RemoveAt | apps/job-search-learning-journal.py:584 | `pop(i)` removes exactly element i and keeps the rest in order |
| JournalState.ClickDeleteAsWrittenSkipsConfirmation | apps/job-search-learning-journal.py:582-590 | as written, of [1, 2, 3] three clicks on the first place remove both 1 and 2 |
| JournalState.ClickDelete | apps/job-search-learning-journal.py:582-590 | a click on the waiting item removes exactly it and clears the marker; any other click only marks the item |
| JournalState.ClickDeleteNeedsTwoClicks | apps/job-search-learning-journal.py:582-590 | with the marker cleared, every removal needs two clicks on the same item |
| JournalState.LogLinked | apps/job-search-learning-journal.py:1331-1337 | writing the linked skills' lines keeps the set of skills |
| JournalState.LogLinkedEffect | apps/job-search-learning-journal.py:1331-1337 | no level changes, an unlinked skill is unchanged, a skill linked once gets exactly one new line |
| JournalState.LogLinkedSkills | apps/job-search-learning-journal.py:1331-1337 | the loop over the linked skills leaves exactly the map `LogLinked` describes |
| JournalState.Journal.constructor | apps/job-search-learning-journal.py:103-112 | a first start has empty lists and the seven skills at level 0 with empty logs |
| JournalState.Journal.SubmitEntry | apps/job-search-learning-journal.py:462-500 | saved iff title and content are given; then the entry is appended and the skills become the keyword update of the old ones; nothing else changes |
| JournalSkills.LearnFromEntry | apps/job-search-learning-journal.py:491-499 | the loop over the keyword table leaves exactly the skills `AfterLearning` describes |
| JournalState.Journal.SubmitApplication | apps/job-search-learning-journal.py:633-656 | saved iff company and position are given; then the new application is appended; nothing else changes |
| JournalState.Journal.UpdateStatus | apps/job-search-learning-journal.py:821-831 | only application i changes, by the status update |
| JournalState.Journal.ClickDeleteEntry | apps/job-search-learning-journal.py:582-590 | the entry list and its marker follow the corrected two-click rule `ClickDelete` (the marker is cleared after a removal, see Findings); nothing else changes |
| JournalState.Journal.ClickDeleteApplication | apps/job-search-learning-journal.py:838-846 | the application list and its marker follow the corrected two-click rule `ClickDelete` (see Findings); nothing else changes |
| JournalState.Journal.SaveSkillLevel | apps/job-search-learning-journal.py:1074-1088 | only skill k changes, by the corrected save rule `SaveSkill` (a line is logged when the level changes or a note is typed, see Findings) |
| JournalState.Journal.SubmitObjective | apps/job-search-learning-journal.py:1298-1338 | saved iff title, description and a filled step; then the objective is appended with status "En cours", every form field, one not-done step per filled field in order, and each linked skill gets its line; nothing else changes |
| JournalState.Journal.ToggleStep | apps/job-search-learning-journal.py:1198-1201 | only the done flag of step j of objective i changes |
| JournalState.Journal.UpdateObjectiveStatus | apps/job-search-learning-journal.py:1216-1219 | only the status of objective i changes |
| JournalState.Journal.ClickDeleteObjective | apps/job-search-learning-journal.py:1223-1231 | the objective list and its marker follow the corrected two-click rule `ClickDelete` (see Findings); nothing else changes |
| CrmDates.ParseIso | apps/crm-app.py:143 | `strptime('%Y-%m-%d')` yields only existing dates, read from three dash-separated fields with a four-digit year |
| CrmDates.FrenchDate | apps/crm-app.py:145 | "day month-name year": split on spaces it gives back the unpadded day, the month's French name and the year, and the day and year read back as numbers |
| CrmDates.FrenchDateInjective | apps/crm-app.py:144-145 | two different dates are never shown with the same text |
| CrmDates.FormatDateFr | apps/crm-app.py:140-145 | a missing or empty date gives ""; any other text gives a result iff `strptime` accepts it, and that result is the French form of the parsed date (so "2024-3-5" and "2024-03-05" both give "5 mars 2024") |
| CrmDates.ParseIsoDate | apps/crm-app.py:143 | every date written with `%Y-%m-%d` (year ≥ 1000) reads back as itself |
| CrmDates.FormatStoredDate | apps/crm-app.py:140-145 | every stored date is shown as "day month-name year" |
| CrmDates.FormatMissingLeapDay | apps/crm-app.py:143 | "2023-02-29" raises |
| CrmDates.ParseMissingLeapDay | apps/crm-app.py:143 | `strptime` reads "2023-02-29" as the fields 2023, 2 and 29 and refuses it, since February 2023 has 28 days |
| CrmRecords.MaxId | apps/crm-app.py:593 | the maximum is one of the ids and no id exceeds it |
| CrmRecords.NewId | apps/crm-app.py:593 | 1 for an empty table, otherwise max + 1; larger than every existing id |
| CrmRecords.NewIdKeepsIdsDistinct | apps/crm-app.py:593 | appending a row under a new id keeps the ids distinct (same rule at lines 901, 1102, 1296) |
| CrmRecords.NewIdPositive | apps/crm-app.py:593 | a table of positive ids gets a positive id |
| CrmRecords.EncodeParticipants | apps/crm-app.py:1105 | the stored text is "" iff no company was chosen |
| CrmRecords.ParseAll | apps/crm-app.py:1031 | `[int(p) for p in parts]` succeeds iff every part is a number, with one id per part |
| CrmRecords.DecodeParticipants | apps/crm-app.py:1030-1031 | an empty text reads as no participants, any other as the numbers between the commas |
| CrmRecords.DecodeEncodeParticipants | apps/crm-app.py:1030-1031 | reading back a stored participant list gives the chosen ids in order |
| CrmRecords.NewEvent | apps/crm-app.py:1105-1119 | a new event's participant text reads back as its participants, its count is their number, and its report is empty |
| CrmRecords.ImportCheckIsAboutPresence | apps/crm-app.py:1659-1690 | acceptance depends only on the presence of the required columns: extra or reordered columns do not matter, a missing one refuses the file |
| CrmRecords.CompanyExportReimports | apps/crm-app.py:1659-1665 | a file with the company columns is accepted; an offer file without `date_publication` is refused |
| CrmRecords.Import | apps/crm-app.py:1659-1690 | the imported file is written iff its header has every required column; otherwise the stored file is kept |
| CrmRecords.UpdateWhere | apps/crm-app.py:764-779 | every row with the selected id is edited, every other row is kept, same length and order |
| CrmRecords.UpdateWhereLocal | apps/crm-app.py:764-779 | an update touches no other id, and an absent id changes nothing |
| CrmRecords.ApplyEdit | apps/crm-app.py:764-779 | the sixteen edited columns take the form's values; the id and the last contact are kept |
| CrmRecords.CompanyName | apps/crm-app.py:904 | `.iloc[0]`: the name of the first row with that id |
| CrmStats.ConversionRate | apps/crm-app.py:165-168 | 0 when there are no prospects and no active partners; otherwise active/(prospects + active)·100; in [0, 100]; 100 iff no prospects; 0 iff no active partners |
| CrmStats.ConversionRateMonotone | apps/crm-app.py:165-168 | one more active partner never lowers the rate, one more prospect never raises it |
| CrmStats.ValueCounts | apps/crm-app.py:176-181 | `value_counts()`: exactly the values present, each with a count between 1 and the number of rows |
| CrmStats.ValueCountsAppend | apps/crm-app.py:176-181 | one more row adds one to its own value's count and leaves the others |
| CrmStats.CalculateStats | apps/crm-app.py:149-181 | totals are the table lengths; each status, offer-type and recent count is the number of rows of that kind; the rate is `ConversionRate` of the partner and prospect counts; the two breakdowns are the `ValueCounts` of the type and sector columns; partners + prospects ≤ companies, the three offer types ≤ offers |
| CrmStore.Crm.AddCompany | apps/crm-app.py:588-617 | saved iff name, city, contact and email are given; then the company is appended under a new id with last contact = first contact; ids stay distinct; other tables unchanged |
| CrmStore.Crm.EditCompany | apps/crm-app.py:760-779 | saved iff the required fields are given; then only rows with the selected id take the sixteen edited fields |
| CrmStore.Crm.RecordInteraction | apps/crm-app.py:896-924 | saved iff a company is chosen and a description given; then the interaction is appended under a new id with the company's name, and only that company's last contact becomes its date |
| CrmRecords.TouchLastContact | apps/crm-app.py:924 | the company with the chosen id gets the interaction's date as last contact, every other row is unchanged, and no id changes |
| CrmStore.Crm.PlanEvent | apps/crm-app.py:1097-1122 | saved iff name and description are given; then the event is appended under a new id with its encoded participants |
| CrmStore.Crm.RecordReport | apps/crm-app.py:1049-1059 | for a finished event without a report, a non-empty report is written on the selected event only |
| CrmStore.Crm.AddOffer | apps/crm-app.py:1291-1319 | saved iff title, location, skills and description are given; then the offer is appended under a new id with 0 applications |
| CrmStore.Crm.UpdateOffer | apps/crm-app.py:1251-1255 | only the selected offer's status and two counts change |
| CrmNotifications.Unread | apps/crm-app.py:2181-2187 | the unread count is at most the list length and positive iff some notification is unread |
| CrmNotifications.UnreadAfterMarking | apps/crm-app.py:2184-2186 | marking one unread notification read lowers the unread count by exactly one |
| CrmNotifications.UnreadPositions | apps/crm-app.py:2181-2183 | the listed positions are exactly the unread ones, in increasing order |
| CrmNotifications.ListedIffUnread | apps/crm-app.py:2181-2191 | nothing is listed iff nothing is unread |
| CrmNotifications.SeedCount | apps/crm-app.py:2162-2177 | the seeded list has exactly two unread notifications |
| CrmNotifications.NotificationCenter.constructor | apps/crm-app.py:2154-2158 | a new session starts with no notifications and the counter at 0 |
| CrmNotifications.NotificationCenter.SeedIfEmpty | apps/crm-app.py:2162-2177 | an empty list gets the two seeded notifications and the counter 2; otherwise nothing changes; the counter stays the unread count |
| CrmNotifications.NotificationCenter.Listed | apps/crm-app.py:2181-2183 | with a positive counter, the unread positions; otherwise none |
| CrmNotifications.NotificationCenter.MarkRead | apps/crm-app.py:2184-2186 | only that notification's flag changes and the counter drops by one, staying the unread count |
| CrmCalendar.CellAt | apps/crm-app.py:2121-2139 | a cell shows a day iff it lies between the leading blanks and the end of the month, and that day is in 1..days |
| CrmCalendar.Layout | apps/crm-app.py:2115-2139 | the first n cells, cell by cell |
| CrmCalendar.MonthGrid | apps/crm-app.py:2115-2143 | the week loop draws 1 to 6 rows of 7 cells, reads as the month layout, and stops at the first row that completes the month |
| CrmCalendar.DaysShownInLayout | apps/crm-app.py:2121-2139 | the day counter numbers the day cells 1, 2, 3, ... in order |
| CrmCalendar.EveryDayOnce | apps/crm-app.py:2115-2143 | a grid that reaches the end of the month shows every day 1..days exactly once, in increasing order |
| CrmCalendar.EventsOn | apps/crm-app.py:2128-2129 | the events listed under a day cell are exactly those whose date text is the cell's key `YYYY-MM-DD`, in table order |
| CrmCalendar.DayKeyIsStoredDate | apps/crm-app.py:2128 | the cell key of a day is the text `strftime('%Y-%m-%d')` stores for that date |
| CrmCalendar.CalendarFindsStoredEvent | apps/crm-app.py:2128-2129 | an event stored with a date is listed under that day's cell and under no other day of the month |

## Left out

- Streamlit rendering, CSS, page routing, widgets, reruns and the plotly charts are not modelled.
- Loading and saving CSV/JSON files, uploads and base64 download links are not modelled. Tables and files are values passed in and returned.
- Random demo data (`generate_dummy_data`, `generate_matching_data`, the `load_data` fallbacks) and random tips are not modelled.
- The simulated backup/restore, report generation and advanced export do nothing real and are not modelled.
- Reading the clock and `calendar.monthrange` are not modelled. They are parameters: `today`, `since`, `now`, the first weekday and the month length.
- CrmStats.ConversionRate: the rate is an exact real. The app computes `active / (prospects + active) * 100` in floats and shows it with one decimal (apps/crm-app.py:375); float round-off is not modelled, so the equation `rate · (prospects + active) == active · 100` holds for the model only.
- Scoring.MatchScore: uses exact reals, not floats. The float round-off of `score / max_score * 100` is not modelled, so a float tie that lands a hair off .5 may round differently.
- pandas means and averages, and the `offres_par_mois` grouping of `calculate_stats`, are not modelled; they are chart inputs.
- MatchRanking.ByDescendingScore: pandas' default sort is not stable. The model states only the order and the permutation, not how ties are arranged.
- FollowUp.FilterIntroductions: `str.contains` reads the term as a regular expression. The model reads it as plain text.
- Text.Lower: folds ASCII and Latin-1 capitals only. Case folding of the rest of Unicode is not modelled.
- CrmRecords.ParseAll: Python's `int` also accepts surrounding blanks, a sign and underscores. The model accepts plain decimal digits only.
- CrmDates.ParseIso: `strptime` also accepts non-ASCII digits. The model accepts ASCII digits only.
- CrmDates.ParseIsoDate: the round trip is stated for years from 1000 on. `strftime('%Y')` prints fewer than four digits below that, and such text is refused on reading.
- CrmRecords.DecodeParticipants: an empty participant cell read back from CSV becomes NaN. That case is not modelled.
- Index mismatch not reproduced: the journal's update, toggle and delete buttons index the full list with a position taken from the filtered or sorted list (apps/job-search-learning-journal.py:584 with the index from line 538, 822, 840, 1199, 1217, and 1225 with the index from line 1126). The model takes an index into the list it changes, as a precondition.
- JournalState.Journal.SubmitEntry: requires all seven skills to exist, as `Valid` states. With a skills file missing a key the source raises `KeyError`, and that case is not modelled.
- JournalState.Journal.SaveSkillLevel: the slider bounds the level by 5, which is a precondition here. Recreating a missing skill is covered by `Valid`.
- ClickDeleteEntry: follows the corrected rule `JournalState.ClickDelete` from "## Findings", which clears the marker after a removal. The app as written keeps the marker, so its next click on the same place deletes without confirmation; that behaviour is `JournalState.ClickDeleteAsWritten` and is not what the class does.
- ClickDeleteApplication: follows the corrected rule `JournalState.ClickDelete`, not the as-written marker handling of apps/job-search-learning-journal.py:838-846, for the same reason.
- ClickDeleteObjective: follows the corrected rule `JournalState.ClickDelete`, not the as-written marker handling of apps/job-search-learning-journal.py:1223-1231, for the same reason.
- SaveSkillLevel: follows the corrected rule `JournalSkills.SaveSkill` from "## Findings". The app as written (`JournalSkills.SaveSkillAsWritten`) logs a line only when a note is typed, so a level change alone is not logged by the app but is logged by the class.
- ProgressPercent: `int(progression * 100)` is computed on floats in the app and modelled as the floor of the exact ratio. The two agree for the at most five steps the form creates; float round-off is not modelled.
- LevelText: prints every level as a float ("0.0", "5.0"). The app prints a level still held as a Python int (the initial 0, or the 5 that `min(5, ...)` returns) without ".0". Only the wording of the corrected log line is affected.
- The journal's "edit this entry" button only sets a session flag that nothing reads, so it is not modelled.
- The prefill of a journal entry from an application (`create_journal_from_app`) is also set but never read, so it is not modelled.
- The CRM caches `load_data` across reruns. The model writes the imported file only; it does not model when the cache shows it.
- CrmStore.Crm.RecordInteraction and CrmStore.Crm.AddOffer: the chosen company must exist, as a precondition. The select box offers only existing ids, and otherwise `.iloc[0]` raises.
- CrmStore.Crm.UpdateOffer: `retained <= applications` is a precondition, because the number input bounds it.

## Findings

| source | as written | input that shows it | evidently intended | confidence | as-written member | corrected member |
|---|---|---|---|---|---|---|
| apps/job-search-learning-journal.py:1080-1088 | the new level is stored before `current_level` is read, so `new_level != current_level` is always false and a log line is written only when a note is typed | a skill at level 0 saved at 2.5 with no note: level 2.5, history still empty | a line "Niveau mis à jour: old → new" whenever the level changes | not executed | JournalSkills.SaveSkillAsWrittenMissesLevelChange | JournalSkills.SaveSkill |
| apps/job-search-learning-journal.py:582-590 | after a confirmed `pop(i)` the marker `confirm_delete` keeps the value i, so the item that moves into place i is deleted by a single click (also lines 838-846 and 1223-1231) | list [1, 2, 3]: click on 0, click on 0 (1 removed), click on 0 (2 removed without confirmation) | every removal asks for a second click | not executed | JournalState.ClickDeleteAsWrittenSkipsConfirmation | JournalState.ClickDeleteNeedsTwoClicks |

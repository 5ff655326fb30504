# Ardent olympiad platform — a verified model of its core

This project models the core of the Ardent education platform's Django back
end:

- **Olympiads.** Registration, the timed attempt, scoring, the two
  rankings, reward distribution, certificates and payments.
- **Gamification.** Experience and levels, the daily streak, the profession
  roadmap and the career map.
- **Teacher wallet.** Commission split, pending and available balances, and
  payouts.
- **Learning flow.** Lesson locking, lesson progress and enrollment
  statistics.
- **Small helpers.** The question importer's answer normalisation, the FAQ
  assistant, phone formatting, verification codes and permission classes.

It is written in Dafny and states, as contracts and lemmas, what each of
these operations promises.

## Layout

| File | Module | What it holds |
|---|---|---|
| `text.dfy` | `Text` | The Python string operations the code relies on: `strip`, `lower`, `split`, `str(int)`, `int(str)`. |
| `models.dfy` | `Models` | Rows and model methods of `models.py`: the user's level and `add_xp`, `level_progress`, slugs, `Olympiad.refresh_status`, `Course.clean`, `VerificationCode.is_valid`, and the JSON answers dictionary. |
| `permissions.dfy` | `Permissions` | The REST permission classes. |
| `scoring.dfy` | `Scoring` | The three answer-checking rules: the attempt service, the one-shot `submit` action and the result-detail view. |
| `ranking.dfy` | `Ranking` | The reward ranking, the staff ranking, the leaderboard and the result rank. |
| `rewards.dfy` | `Rewards` | Prize matching per strategy, prize grants and a distribution run, all as values. |
| `engine.dfy` | `Engine` | Pure transitions over the olympiad tables. Covers registration, `start_test`, answers, `finish_test`, `submit`, `result`, publication, payments and wallet purchases. |
| `engine_db.dfy` | `EngineDb` | Class `OlympiadDb` holding those tables as fields. Each method is proved to do exactly what the matching `Engine` transition says. |
| `streak.dfy` | `Streak` | `StreakService.record_activity`. |
| `wallet.dfy` | `Wallet` | `WalletService` and the payout view actions, over class `WalletStore`. |
| `learning.dfy` | `Learning` | `LearningService`, over class `LearningStore`. |
| `career.dfy` | `Career` | `CareerEngineService`, over class `CareerStore`. |
| `profession.dfy` | `Profession` | `ProfessionService`, over class `ProfessionStore`. |
| `certificates.dfy` | `Certificates` | `CertificateService` and the certificate and course-statistics signals, over class `CertificateStore`. |
| `telegram.dfy` | `Telegram` | `generate_verification_code` and `format_phone_number`. |
| `verification.dfy` | `Verification` | The `verify_code` endpoint, over class `CodeTable`. |
| `importer.dfy` | `Importer` | The MCQ answer normalisation of `import_questions`. |
| `assistant.dfy` | `Assistant` | `AIService.process_query` and `find_faq_match`, over class `AssistantLog`. |

## Modelling choices

- **Money and percentages.** Money (`Decimal`) and percentages (`float`)
  are exact `real`s. `int(x)` on a number is `Models.Trunc`, which
  truncates toward zero.
- **Time and randomness.** The clock is an integer parameter (seconds, or
  day numbers for streaks). Random draws are parameters (the digits or
  characters drawn). The language model's reply is a parameter.
- **Database ordering.** Tables are maps keyed by their unique columns.
  Ordered query results are sequences in table order.
- **Atomicity.** `transaction.atomic` is read as "every write inside the
  block commits or none does". The reward run catches its own exception
  inside the block, so the grants made before the failure stay.
- **Fields the services use but `models.py` does not declare.** The
  services are modelled as they use these fields:
  - `Olympiad.reward_strategy`, `reward_distribution_status`,
    `auto_reward` and `participants_count`;
  - `Prize.prize_type`, `amount` and `target_value`;
  - `Profession.required_xp`;
  - the roadmap step's `olympiad` and its `PROJECT` type.
- **The career map models.** The models the career service imports
  (`ProfessionLevel`, `ProfessionNode`, `UserProfessionState`,
  `UserNodeProgress`) are not in `models.py`. The career map is modelled as
  the service reads them.
- **Career prestige.** `User` has no `teacher_type` field, so the prestige
  test of the career service is a boolean input.

## Model

| member | source | states |
|---|---|---|
| Text.Strip | backend/api/services/ai_service.py:103 | `strip()` returns an infix of its input that neither starts nor ends with whitespace. |
| Text.StripIdempotent | backend/api/services/ai_service.py:103 | Stripping twice is stripping once. |
| Text.LowerStripCommute | backend/api/services/ai_service.py:103 | `lower().strip()` and `strip().lower()` agree. |
| Text.SplitOn | backend/api/services/ai_service.py:110 | `split(',')` gives at least one piece, and no piece contains the separator. |
| Text.SplitJoin | backend/api/services/ai_service.py:110 | Joining the pieces with the separator gives back the input. |
| Text.Words | backend/api/services/ai_service.py:104 | `split()` gives words that are non-empty and contain no whitespace. |
| Text.ParseInt | backend/api/views.py:1754 | `int(s)` succeeds only on a string that is not blank. `IntRoundTrip` shows that it reads back every printed integer. |
| Text.IntRoundTrip | backend/api/views.py:2340-2342 | `int(str(n)) == n` for every integer. |
| Text.IntToStringInjective | backend/api/views.py:2342 | Distinct integers print differently. |
| Models.CalculateLevel | backend/api/models.py:66-68 | The level is the 500-point band the xp falls in: 500 * (level - 1) <= xp < 500 * level. |
| Models.CalculateLevelMonotone | backend/api/models.py:66-68 | More experience never gives a lower level. |
| Models.AddXp | backend/api/models.py:70-83 | A non-positive amount changes nothing. Otherwise xp grows by exactly the amount, the level follows the new xp, and no other column changes. |
| Models.AddXpNeverDecreases | backend/api/models.py:70-83 | add_xp never lowers experience or level on a row whose level matches its xp. |
| Models.LevelProgress | backend/api/models.py:105-124 | The percentage lies in 0..100. The xp left is never negative and is either 0 or the xp missing to the next threshold, which is the next LevelReward or level * 500. |
| Models.LevelProgressDefault | backend/api/models.py:112-122 | Without LevelReward rows, and with the level in step with xp, the bar shows how far the user is into the current 500-point band. |
| Models.Get | backend/api/models.py:633 | `d.get(k)` finds a value exactly when some entry has key k, and the value it returns is that entry's. |
| Models.PutGet | backend/api/services/olympiad_service.py:85-94 | After `answers[k] = v`, key k reads v and every other key reads what it read before. |
| Models.PutDistinct | backend/api/services/olympiad_service.py:85-94 | Writing a key keeps the dictionary's keys distinct. |
| Models.RefreshStatusBySchedule | backend/api/models.py:510-534 | With an automatic status and both dates set, the status is UPCOMING before the start, ONGOING inside the window and CHECKING after it. |
| Models.RefreshStatusKeeps | backend/api/models.py:510-534 | A manual status, or a missing start or end date, is never overwritten. |
| Models.RefreshStatusIdempotent | backend/api/models.py:510-534 | Refreshing twice at the same instant is refreshing once. |
| Models.CandidateInjective | backend/api/models.py:543-553 | Distinct attempts of the slug loop try distinct slugs, so the loop can always find a free one. |
| Models.AssignSlug | backend/api/models.py:543-553 | An existing slug is kept. Otherwise the chosen slug is not taken, and every earlier candidate was taken. |
| Models.CleanErrors | backend/api/models.py:248-273 | For a saved active course, each activation rule appears among the errors exactly when it is violated. Validation fails exactly when the list is non-empty. |
| Models.IsValid | backend/api/models.py:845-854 | A valid code is unexpired, has fewer than five attempts and is equal to the stored code. For an unexpired row under the limit, equality decides validity. |
| Permissions.RoleChecks | backend/api/permissions.py:3-26 | Anonymous requests pass no role check. IsTeacherOrAdmin is exactly IsAdmin or IsTeacher. |
| Permissions.IsOwnerOrAdmin | backend/api/permissions.py:34-51 | An anonymous request raises while reading its role, and only it does. An admin always passes. A non-admin passes only as the teacher column's user, or, when there is no teacher column, as the user column's user. |
| Permissions.TeacherColumnShadowsUser | backend/api/permissions.py:43-49 | A declared teacher column hides the user column, even when that column names the requester. |
| Permissions.OwnerAdmitted | backend/api/permissions.py:40-51 | A non-admin owner is admitted. An object with neither column admits only admins. |
| Scoring.ScoreAttempt | backend/api/services/olympiad_service.py:107-122 | The loop's score and total equal the attempt rule's score and the sum of all question points. |
| Scoring.ServiceScoreBounds | backend/api/services/olympiad_service.py:107-122 | With non-negative points, the score lies between 0 and the total. |
| Scoring.ServiceScoreEmpty | backend/api/services/olympiad_service.py:112-115 | An attempt with no answers scores 0. |
| Scoring.ServiceScoreFull | backend/api/services/olympiad_service.py:107-122 | Answering every question correctly earns the full total. |
| Scoring.Percentage | backend/api/services/olympiad_service.py:125 | The percentage is 0 without points or without score. It lies in 0..100 when the score is within the total, and is 100 at full score. |
| Scoring.DetailStatus | backend/api/views.py:1968-1987 | A missing answer is SKIPPED. Otherwise the answer is CORRECT exactly when the question type's comparison holds. |
| Scoring.ServiceCorrectShownCorrect | backend/api/views.py:1968-1987 | Any answer the attempt service scores is also shown as CORRECT by the result-detail view. |
| Scoring.TextShownCorrectButUnscored | backend/api/services/olympiad_service.py:113-122 | A matching TEXT answer is shown as CORRECT but earns no points when the test is finished. |
| Scoring.FindQuestion | backend/api/views.py:1749-1757 | The lookup returns a question of the olympiad with that id, or none exactly when no question has it. |
| Scoring.SubmitScoreLoop | backend/api/views.py:1749-1761 | The loop sums, over the submitted entries, the points of each entry whose key names a question answered correctly. |
| Scoring.SubmitScoreCountsDuplicates | backend/api/views.py:1749-1761 | As written, keys "1" and "01" both score the same question: a score of 2 against a total of 1. |
| Scoring.AnswerForFinds | backend/api/views.py:1752-1756 | In the corrected scoring, a question's answer comes from an entry whose key `int()` reads as its id, and a question has no answer only when no key names it. |
| Scoring.ScoreSubmission | backend/api/views.py:1749-1765 | The corrected loop returns the per-question score and the total points. |
| Scoring.SubmitScoreBounds | backend/api/views.py:1749-1765 | Counting each question once, the submit score lies between 0 and the total. |
| Scoring.SubmitScoreAgrees | backend/api/views.py:1749-1761 | When no two keys name the same integer, the corrected and as-written scores are equal. |
| Scoring.SubmitXp | backend/api/views.py:1789-1794 | Submit experience is twice the score, plus 20 from 70 percent. |
| Ranking.InsertPermutation | backend/api/services/reward_service.py:34 | Inserting into an ordered list loses and duplicates nothing. |
| Ranking.InsertSorted | backend/api/services/reward_service.py:34 | Inserting into a sorted list keeps it sorted. |
| Ranking.SortBy | backend/api/services/reward_service.py:34 | ORDER BY returns the same rows, sorted, with ties kept in table order. |
| Ranking.CalculateRankings | backend/api/services/reward_service.py:25-42 | Positions count 1, 2, … over the COMPLETED results, sorted by score descending and then time ascending. |
| Ranking.RankingsArePermutation | backend/api/services/reward_service.py:30-34 | The ranking holds exactly the olympiad's COMPLETED results, each once. |
| Ranking.RankingPositionsDistinct | backend/api/services/reward_service.py:37-42 | Entry i has position i + 1, so positions are distinct and consecutive. |
| Ranking.StaffRanking | backend/api/views.py:1656-1672 | The rows of the `ranking` action: this olympiad's COMPLETED results sorted by score, time and submission, ranked 1, 2, …. Who may see them is decided by `Engine.RankingView`. |
| Ranking.StaffRankingIsPermutation | backend/api/views.py:1651-1661 | The staff ranking holds exactly the olympiad's COMPLETED results, each once. |
| Ranking.LeaderboardRank | backend/api/views.py:1876-1879 | my_rank is 1 plus the COMPLETED results strictly ahead, so it is at least 1. |
| Ranking.ResultRank | backend/api/views.py:1836-1839 | The result view's rank is 1 plus the results with a higher score, whatever their status. |
| Ranking.ResultRankAtMostLeaderboardRank | backend/api/views.py:1836-1839 | Once every result is COMPLETED, the result rank is never worse than the leaderboard rank. |
| Ranking.LeaderboardRankAtMostPosition | backend/api/views.py:1876-1879 | The leaderboard rank never exceeds the entrant's position in the reward ranking. |
| Ranking.LeaderboardRankIsPosition | backend/api/views.py:1876-1879 | Without ties on both score and time, the leaderboard rank and the reward position agree. |
| Ranking.LeaderboardRows | backend/api/views.py:1888-1904 | Rows belong to the olympiad and are sorted by score and time. Without the staff flag there are at most a hundred rows, all COMPLETED, and none before results open. Which olympiads a caller can reach, and who counts as staff, is decided by `Engine.LeaderboardView`. |
| Ranking.StaffLeaderboardIsEveryResult | backend/api/views.py:1898-1899 | Staff see every result of the olympiad, whatever its status, each once. |
| Ranking.PublicLeaderboardIsTopHundred | backend/api/views.py:1900-1902 | Once results are open, everybody else sees the first min(100, n) entries of the reward ranking, in order. |
| Ranking.PublicLeaderboardShowsAllOfFew | backend/api/views.py:1900-1902 | With at most a hundred COMPLETED results, the open leaderboard shows each of them once. |
| Ranking.OngoingLeaderboardIsPublic | backend/api/views.py:1888-1904 | Visibility ignores the olympiad status: an anonymous visitor sees the COMPLETED results of an ONGOING olympiad that has no result time. |
| Rewards.MatchingPrizes | backend/api/services/reward_service.py:74-89 | An entrant's prizes are exactly those its strategy matches, in prize order. |
| Rewards.AwardsMembers | backend/api/services/reward_service.py:74-89 | A pair is granted exactly when the entrant is ranked and the prize matches it. |
| Rewards.TopNAwards | backend/api/services/reward_service.py:74-80 | Under TOP_N, a prize goes exactly to the entrant whose position equals its target value. |
| Rewards.TopNAtMostOneWinner | backend/api/services/reward_service.py:74-80 | Under TOP_N, each prize has at most one winner. |
| Rewards.ThresholdAwards | backend/api/services/reward_service.py:82-89 | Under THRESHOLD, an entrant earns every prize whose target is at most its percentage. |
| Rewards.OtherStrategyAwardsNothing | backend/api/services/reward_service.py:73-89 | Any other strategy value grants nothing. |
| Rewards.NoPrizesNoAwards | backend/api/services/reward_service.py:65-69 | Without prizes, nothing is granted. |
| Rewards.AwardPrize | backend/api/services/reward_service.py:105-164 | COIN credits the amount and logs one transaction. XP adds the truncated amount and leaves the level alone. PHYSICAL adds one PENDING winner record unless the pair has one. |
| Rewards.GrantAll | backend/api/services/reward_service.py:75-89 | Grants applied in order keep the set of users and each user's id. |
| Rewards.GrantAllTotals | backend/api/services/reward_service.py:117-141 | After a run, each balance has grown by exactly that user's coin prizes and each xp by exactly that user's XP prizes. Every other column is unchanged. |
| Rewards.GrantAllTransactions | backend/api/services/reward_service.py:123-129 | A run logs one OLYMPIAD_REWARD transaction per coin grant, in order, and nothing else. |
| Rewards.GrantAllKeepsWinners | backend/api/services/reward_service.py:151-153 | An existing winner record is never overwritten. |
| Rewards.GrantAllNewWinners | backend/api/services/reward_service.py:155-161 | A run creates winner records only for this olympiad, and only for students with a physical grant. |
| Rewards.Distribute | backend/api/services/reward_service.py:48-102 | A COMPLETED distribution refuses without change. Otherwise the run returns true exactly when it ends COMPLETED, and never leaves IN_PROGRESS. |
| Rewards.RerunAfterFailureRegrantsCoins | backend/api/services/reward_service.py:55-57 | The guard refuses only COMPLETED, so a run after a FAILED one pays again the coins the failed run already credited. |
| Engine.RegisterUser | backend/api/services/olympiad_service.py:10-27 | Succeeds exactly when the user is not yet registered, the olympiad is not full, and the balance covers any price. It then adds one registration, marked paid only for a free olympiad, and never changes a balance. |
| Engine.RegisterUserAsWrittenRefusesOpenSeats | backend/api/services/olympiad_service.py:12-27 | As written, a free olympiad with a set limit and seats left refuses a new participant with AttributeError, where the intended service registers them as paid. |
| Engine.RegisterUserAgreesWithoutLimit | backend/api/services/olympiad_service.py:15 | Without a participant limit, the written and the intended registration agree. |
| Engine.Register | backend/api/views.py:1523-1579 | An olympiad the user cannot find through the queryset is 404. It refuses a COMPLETED olympiad, a repeat, a reached limit and an unpaid priced olympiad. Otherwise it adds one registration and nothing else. |
| Engine.RegisterRespectsLimit | backend/api/views.py:1523-1579 | With a limit set, a successful registration never takes the count past it. |
| Engine.WindowError | backend/api/services/olympiad_service.py:49-53 | Outside ONGOING, a missing start date, an early start and a late start are each refused. |
| Engine.StartTest | backend/api/services/olympiad_service.py:43-82 | Refuses a missing olympiad, a closed window and a missing registration. A COMPLETED attempt is refused unless re-takes are allowed, in which case a fresh attempt replaces it. A first start or an expired timer also gives a fresh attempt. Otherwise the stored attempt is kept, and only that attempt changes. |
| Engine.StartedAttempt | backend/api/services/olympiad_service.py:62-80 | The attempt left for the pair is either a fresh one starting now or the one already stored. |
| Engine.SubmitAnswer | backend/api/services/olympiad_service.py:85-94 | Refuses a missing id or answer, a missing attempt and a completed one. Otherwise it stores exactly that answer under the question's key. |
| Engine.DeltaSeconds | backend/api/services/olympiad_service.py:128 | `timedelta.seconds` always lies in 0..86399. |
| Engine.FinishTest | backend/api/services/olympiad_service.py:97-134 | A COMPLETED attempt is returned untouched. Any other attempt becomes COMPLETED with a bounded score, and the user gains the olympiad's xp. |
| Engine.FinishTestIdempotent | backend/api/services/olympiad_service.py:99-102 | Finishing twice is finishing once, and the second call grants no experience. |
| Engine.FinishTestNeverLowersXp | backend/api/services/olympiad_service.py:133-134 | Finishing never lowers experience or level. |
| Engine.SubmitStatus | backend/api/views.py:1744-1746 | A submission is DISQUALIFIED exactly when a tab-switch limit is set and exceeded. It is never IN_PROGRESS. |
| Engine.SubmittedRow | backend/api/views.py:1768-1787 | The stored row carries the trimmed answers, the corrected score, its percentage and the status. |
| Engine.SubmitReward | backend/api/views.py:1789-1794 | Only a COMPLETED submission earns experience. |
| Engine.Submit | backend/api/views.py:1716-1794 | An olympiad the user cannot find through the queryset is 404. A repeat is refused only when the stored result is COMPLETED and re-takes are off. Otherwise the scored row is stored and the user's xp follows SubmitReward. |
| Engine.DisqualifiedEarnsNothing | backend/api/views.py:1789-1794 | A disqualified submission earns no experience. |
| Engine.Result | backend/api/views.py:1809-1847 | An olympiad the user cannot find is 404, and so is a missing result. The participant waits exactly while results are not open. After that, the stored result is shown with a rank of at least 1. |
| Engine.TopScoreRanksFirst | backend/api/views.py:1836-1839 | The top score is ranked first. |
| Engine.RankingView | backend/api/views.py:1650-1672 | 404 when the caller's queryset does not hold the olympiad. Otherwise every COMPLETED result of it, each once, at positions 1, 2, …. |
| Engine.AnonymousSeesStaffRanking | backend/api/views.py:1487-1490 | Because the view grants every action outside its list to anybody, an anonymous visitor gets the full ranking of an active olympiad. |
| Engine.LeaderboardView | backend/api/views.py:1850-1904 | 404 when the caller's queryset does not hold the olympiad. Otherwise the `LeaderboardRows` of it, with a signed-in teacher or admin as staff. A teacher sees rows only of an olympiad they teach. |
| Engine.HiddenOlympiadNotFound | backend/api/views.py:1468-1484 | A student cannot find an inactive olympiad: register and submit answer 404 and change nothing, and the result, ranking and leaderboard views show nothing. |
| Engine.OtherTeachersLeaderboardNotFound | backend/api/views.py:1474-1476 | A teacher cannot reach the leaderboard of an olympiad they do not teach. |
| Engine.DistributeAsWrittenNeverRuns | backend/api/services/reward_service.py:48-102 | As written, the distribution returns false and saves nothing, even for an olympiad without prizes that the intended run completes with true. |
| Engine.DistributeRewards | backend/api/services/reward_service.py:48-102 | A missing olympiad fails without change. Otherwise the tables follow `Rewards.Distribute`. |
| Engine.DistributeOnce | backend/api/services/reward_service.py:55-57 | After a completed distribution, no later run grants anything. |
| Engine.PublishAsWrittenFailsAfterSaving | backend/api/services/olympiad_service.py:175-190 | As written, publishing saves the PUBLISHED row and then fails, where the intended service succeeds. Without automatic rewards both save the same tables. |
| Engine.PublishResults | backend/api/services/olympiad_service.py:175-190 | The olympiad becomes PUBLISHED with results open from now. With auto rewards, the distribution runs. |
| Engine.ConfirmPayment | backend/api/views.py:3109-3158 | Only a PENDING payment is confirmed. It becomes COMPLETED, and a top-up credits its amount. |
| Engine.RejectPayment | backend/api/views.py:3161-3169 | A PENDING payment becomes FAILED, and nothing else changes. |
| Engine.RefundPayment | backend/api/views.py:3203-3225 | Only a COMPLETED payment is refunded. It becomes REFUNDED, and a top-up debits its amount, even into a negative balance. |
| Engine.ConfirmThenRefund | backend/api/views.py:3109-3225 | Confirming a top-up and then refunding it leaves the balance where it was. |
| Engine.TopUp | backend/api/views.py:4066-4094 | A missing or non-positive amount is refused. Otherwise one COMPLETED top-up is recorded and the balance grows by the amount. |
| Engine.PurchaseCourse | backend/api/views.py:4170-4178 | The price is debited, a payment is recorded, an enrollment is created and the student count goes up by one. |
| Engine.PurchaseOlympiad | backend/api/views.py:4183-4187 | Succeeds exactly when the olympiad exists, the user is not yet registered and the balance covers the price. It debits the price, grants the olympiad's xp, records a payment and creates a paid registration. |
| Engine.Purchase | backend/api/views.py:4104-4196 | Missing data and an unknown type are refused. Otherwise the call is the course or the olympiad purchase. A successful purchase never leaves a negative balance. |
| Engine.PurchaseSatisfiesRegisterPayment | backend/api/views.py:4158-4167 | A wallet purchase of an olympiad leaves exactly the payment the register action looks for. |
| EngineDb.OlympiadDb.RegisterUser | backend/api/services/olympiad_service.py:10-27 | The tables end as `Engine.RegisterUser` says. |
| EngineDb.OlympiadDb.Register | backend/api/views.py:1523-1579 | The tables end as `Engine.Register` says. |
| EngineDb.OlympiadDb.StartTest | backend/api/services/olympiad_service.py:43-82 | The tables end as `Engine.StartTest` says. |
| EngineDb.OlympiadDb.SubmitAnswer | backend/api/services/olympiad_service.py:85-94 | The tables end as `Engine.SubmitAnswer` says. |
| EngineDb.OlympiadDb.FinishTest | backend/api/services/olympiad_service.py:97-134 | The scoring loop and the updates leave the tables as `Engine.FinishTest` says. |
| EngineDb.OlympiadDb.Submit | backend/api/views.py:1716-1794 | The tables end as `Engine.Submit` says. |
| EngineDb.OlympiadDb.AwardPrize | backend/api/services/reward_service.py:105-164 | The users, transactions and winner records end as `Rewards.AwardPrize` says. |
| EngineDb.OlympiadDb.DistributeRewards | backend/api/services/reward_service.py:48-102 | The tables end as `Engine.DistributeRewards` says. |
| EngineDb.OlympiadDb.RunDistribution | backend/api/services/reward_service.py:59-95 | Past the guard, the tables follow `Rewards.Distribute`. |
| EngineDb.OlympiadDb.GrantRun | backend/api/services/reward_service.py:74-89 | The nested loops commit the run's grants in order, up to the failing grant. |
| EngineDb.OlympiadDb.GrantPrizes | backend/api/services/reward_service.py:77-80 | The inner loop commits one entrant's matching prizes in prize order. |
| EngineDb.OlympiadDb.GrantNext | backend/api/services/reward_service.py:79-80 | One grant applies the run's next award. |
| EngineDb.OlympiadDb.PublishResults | backend/api/services/olympiad_service.py:175-190 | The tables end as `Engine.PublishResults` says. |
| EngineDb.OlympiadDb.ConfirmPayment | backend/api/views.py:3109-3158 | The tables end as `Engine.ConfirmPayment` says. |
| EngineDb.OlympiadDb.RejectPayment | backend/api/views.py:3161-3169 | The tables end as `Engine.RejectPayment` says. |
| EngineDb.OlympiadDb.RefundPayment | backend/api/views.py:3203-3225 | The tables end as `Engine.RefundPayment` says. |
| EngineDb.OlympiadDb.TopUp | backend/api/views.py:4066-4094 | The tables end as `Engine.TopUp` says. |
| EngineDb.OlympiadDb.PurchaseCourse | backend/api/views.py:4170-4178 | The tables end as `Engine.PurchaseCourse` says. |
| EngineDb.OlympiadDb.PurchaseOlympiad | backend/api/views.py:4183-4187 | The tables end as `Engine.PurchaseOlympiad` says. |
| EngineDb.OlympiadDb.Purchase | backend/api/views.py:4104-4196 | The tables end as `Engine.Purchase` says. |
| EngineDb.RunOutcome | backend/api/services/reward_service.py:91-102 | The committed grants decide the outcome: COMPLETED when every grant was made, else FAILED. |
| Streak.Record | backend/api/streak_service.py:13-77 | The row is updated exactly when the user was not yet active today. The date then becomes today, the streak is at least 1, and the best streak is the larger of the old best and the new streak. |
| Streak.SameDayIsIdempotent | backend/api/streak_service.py:34-36 | A second activity on the same day reports no update and changes nothing. |
| Streak.RecordBranches | backend/api/streak_service.py:38-64 | Yesterday extends the streak by one. A first activity starts at one. A gap of d days extends it when d - 1 freezes cover the gap, and otherwise resets to one. |
| Streak.RecordFreezes | backend/api/streak_service.py:50-76 | A freeze is earned exactly when the new streak is a multiple of seven. A rescued gap uses exactly the missed days. |
| Streak.RecordKeepsBest | backend/api/streak_service.py:66-68 | The best streak never decreases. |
| Streak.ConsecutiveDays | backend/api/streak_service.py:38-42 | n consecutive daily activities extend the streak by exactly n. |
| Streak.ReplayKeepsBest | backend/api/streak_service.py:66-68 | Across any sequence of days, the best streak never falls below any streak reached. |
| Streak.RowOf | backend/api/streak_service.py:7-11 | A user without a row reads as a fresh streak, and a row read from well-formed stored rows is well formed. |
| Streak.StreakStore.RecordActivity | backend/api/streak_service.py:13-77 | The activity is logged, and the user's row becomes what `Record` says. |
| Wallet.CalculateCommission | backend/api/services/wallet_service.py:20-32 | The platform keeps 30% and the teacher 70%, and the two shares add up to the amount. |
| Wallet.CommissionAsWritten | backend/api/services/wallet_service.py:20-32 | Settings rates given as floats raise a TypeError. The Decimal defaults split as intended. |
| Wallet.CommissionWithSettingsRaises | backend/api/services/wallet_service.py:20-32 | With the float rates from settings, every call fails. Without them, the split equals `CalculateCommission`. |
| Wallet.ReleaseFrom | backend/api/services/wallet_service.py:73-90 | Each aged sale is tested against, and moved in, its own copy of the wallet loaded with the query. The save replaces the stored wallet. The count never exceeds the sales visited. |
| Wallet.Release | backend/api/services/wallet_service.py:62-90 | The release loads its copies from the stored wallets and counts at most one move per sale. |
| Wallet.ReleaseSavesOneMove | backend/api/services/wallet_service.py:80-88 | Each wallet ends as its loaded copy, or as that copy with one moving sale's amount moved out of pending. Saves replace one another and never add up. |
| Wallet.ReleaseLosesEarlierMove | backend/api/services/wallet_service.py:80-90 | As written, two aged sales of 100 against pending 200 are both counted, but the wallet keeps only the last save: 100 available and 100 pending. |
| Wallet.ReleaseConserves | backend/api/services/wallet_service.py:62-90 | A release keeps every wallet's pending-plus-available total and its earnings, and creates or removes no wallet. |
| Wallet.ReleaseTwiceReleasesYoungSale | backend/api/services/wallet_service.py:62-90 | As written, a second run moves an already released sale again, and so releases money from a younger sale. |
| Wallet.ReleaseMarked | backend/api/services/wallet_service.py:62-90 | The corrected release moves the stored wallet and skips sales it has already moved. It creates or removes no wallet, and marks only rows it visited. |
| Wallet.ReleaseMarkedCredits | backend/api/services/wallet_service.py:80-88 | In the corrected release no move is lost: each wallet's balance grows by exactly the amounts of its sales that the run marks released. |
| Wallet.ReleaseMarkedIdempotent | backend/api/services/wallet_service.py:62-90 | With released sales remembered, a second run at the same cutoff moves nothing. |
| Wallet.WalletStore.CreateWallet | backend/api/services/wallet_service.py:14-17 | A teacher without a wallet gets an empty one. Nothing else changes, and both ledgers stay balanced. |
| Wallet.WalletStore.AddPendingBalance | backend/api/services/wallet_service.py:36-58 | Pending balance and earnings both grow by the amount, and exactly one COURSE_SALE transaction is logged. |
| Wallet.WalletStore.ReleasePendingBalance | backend/api/services/wallet_service.py:62-90 | The wallets are loaded once before the loop. The new wallets and the count are what `Release` gives, and both ledger balances are kept. |
| Wallet.WalletStore.RequestPayout | backend/api/views.py:5501-5519 | Non-teachers, an uncovered amount and an amount below 100000 are refused, but the wallet is still created. On success the balance is debited, one REQUESTED payout is added, and the view's ledger stays balanced. |
| Wallet.WalletStore.Approve | backend/api/views.py:5522-5532 | Only a REQUESTED payout becomes APPROVED. No money moves. |
| Wallet.WalletStore.MarkPaid | backend/api/views.py:5535-5560 | Only an APPROVED payout becomes PAID. One PAYOUT transaction is logged. If the teacher has a wallet, its total withdrawn grows by the amount. The view's ledger stays balanced. |
| Wallet.WalletStore.ProcessPayout | backend/api/services/wallet_service.py:96-129 | Only a REQUESTED payout whose amount the balance covers is approved. The balance is debited and the total withdrawn credited by the amount, and a negative PAYOUT transaction is logged. The service's ledger stays balanced. |
| Wallet.WalletStore.MarkPayoutPaid | backend/api/services/wallet_service.py:134-140 | The payout becomes PAID whatever its status. No money moves. |
| Wallet.WalletStore.RejectPayout | backend/api/services/wallet_service.py:143-161 | An APPROVED payout without a wallet raises. Otherwise the payout ends REJECTED with the reason, and an APPROVED one's amount goes back from the total withdrawn to the balance. |
| Learning.LockLessons | backend/api/services/learning_service.py:58-77 | The loop gives one lock flag per lesson of the outline. Each flag equals the locking rule at that position. |
| Learning.LockingCases | backend/api/services/learning_service.py:58-77 | A guest sees exactly the free lessons open. An enrolled user always has the first lesson open. |
| Learning.PracticeScore | backend/api/services/learning_service.py:124-130 | The score is either the practice's points or 0. It is 0 when there is no reference answer. |
| Learning.PracticeAcceptsReference | backend/api/services/learning_service.py:125-126 | The reference answer earns the points whatever its case or surrounding spaces. |
| Learning.TestScore | backend/api/services/learning_service.py:138-148 | The mini-test score lies in 0..100 and is 100 exactly when every question is answered correctly. |
| Learning.ApplyUpdate | backend/api/services/learning_service.py:113-151 | The completion columns never change. Only a test update on a lesson with a test counts an attempt. Only a video update marks the video watched. A changed test score lies in 0..100. A practice score changes only on a lesson with a practice. |
| Learning.VideoAloneCompletes | backend/api/services/learning_service.py:166-180 | A lesson with neither practice nor test completes once its video is watched. |
| Learning.ReadinessKeptByVideoAndPractice | backend/api/services/learning_service.py:166-180 | A video or practice update never undoes readiness. |
| Learning.EnrollmentPercent | backend/api/services/learning_service.py:197-204 | Progress is never negative. With published lessons, it reaches 100 exactly when every one of them is completed. |
| Learning.StaleCountMissesFinalLesson | backend/api/services/learning_service.py:153-156 | As written, completing the last lesson recounts before saving it, so progress stays below 100. |
| Learning.SavedCountCompletesCourse | backend/api/services/learning_service.py:195-210 | Counting after the record is saved, completing the last published lesson brings progress to 100. |
| Learning.LearningStore.LearningState | backend/api/services/learning_service.py:13-84 | The lock flags are those `LockLessons` computes over the course outline and the stored progress. |
| Learning.LearningStore.RecordStreak | backend/api/streak_service.py:13-77 | The user's streak row becomes what `Streak.Record` says. |
| Learning.LearningStore.GrantXp | backend/api/models.py:70-91 | The user's row follows `AddXp`, and a positive grant is logged as an activity. |
| Learning.LearningStore.UpdateEnrollmentStats | backend/api/services/learning_service.py:195-235 | Progress becomes the completed share of published lessons. First reaching 100 grants the course xp and the certificate, then fails on the undefined notification class. |
| Learning.LearningStore.UpdateLessonProgress | backend/api/services/learning_service.py:98-157 | Refuses a missing lesson or enrollment. The record follows `ApplyUpdate`, and a first completion adds streak, xp and recount. A completed lesson stays completed. |
| Career.LowestAbove | backend/api/services/career_engine_service.py:109-112 | The level with the lowest order above the bound, or none exactly when no level lies above it. |
| Career.NewStateStartsAtBottom | backend/api/services/career_engine_service.py:14-19 | A new state starts active at a lowest level of the profession, whenever the profession has one. |
| Career.Reward | backend/api/services/career_engine_service.py:44-49 | Prestige gives at least the base reward and at most a fifth more. Without prestige the reward is unchanged. |
| Career.Progression | backend/api/services/career_engine_service.py:91-141 | The total xp never changes. The state moves only when earned, to the next level by order, and never to a prestige-only level without prestige. Conversely, once the level's required nodes are done and its xp collected, the state moves to the next level (unless it is prestige-only and the user has no prestige) with a level-up notice, or, with no level above, an unfinished state becomes finished with a completion notice. A notice is sent exactly when the state changes. |
| Career.ProgressionSkipsNoLevel | backend/api/services/career_engine_service.py:109-122 | No level lies strictly between the old level and the new one. |
| Career.FinishedOnce | backend/api/services/career_engine_service.py:131-141 | Checking right after completion changes nothing and sends nothing. |
| Career.NoPrestigeLevelWithoutPrestige | backend/api/services/career_engine_service.py:115-122 | A user without prestige never reaches a prestige-only level by progressing. |
| Career.CareerStore.GetOrCreateState | backend/api/services/career_engine_service.py:9-20 | Returns the stored state, or stores a new one at the profession's lowest level. |
| Career.CareerStore.CanUnlockNode | backend/api/services/career_engine_service.py:65-88 | The two loops answer true exactly when every earlier required node and every listed prerequisite is completed. |
| Career.CareerStore.RequiredNodesDone | backend/api/services/career_engine_service.py:97-105 | The loop answers true exactly when every required node of the level is completed. |
| Career.CareerStore.CheckLevelProgression | backend/api/services/career_engine_service.py:91-141 | The state becomes what `Progression` says, and its notice is appended: an earned move or finish happens, and an unearned one does not. |
| Career.CareerStore.AwardNode | backend/api/services/career_engine_service.py:38-57 | The node is completed with the score. A positive reward is added to the state's total and the user's xp. |
| Career.CareerStore.CompleteNode | backend/api/services/career_engine_service.py:23-62 | Already done and locked nodes are refused, with only the fetched rows created. Otherwise the node is completed, the reward credited, and the state moved or finished exactly as `Progression` says for the rewarded state. |
| Career.UnlockableIgnoresNode | backend/api/services/career_engine_service.py:27-36 | Creating a node's own progress row first does not change whether it unlocks. |
| Career.CompletedNodeStaysDone | backend/api/services/career_engine_service.py:31-32 | Completing a completed node again is refused, and no experience changes. |
| Career.RewardKeepsLevelConsistent | backend/api/services/career_engine_service.py:55-57 | Rewards only add xp, so a level column consistent with xp stays consistent. |
| Profession.MandatoryDone | backend/api/services/profession_service.py:29-57 | The count of mandatory steps done never exceeds the count of mandatory steps. |
| Profession.AllMandatoryDone | backend/api/services/profession_service.py:29-57 | All mandatory steps are counted done exactly when each of them is done. |
| Profession.StepPercent | backend/api/services/profession_service.py:60 | The step share lies in 0..100 and is 100 exactly when every mandatory step is done. |
| Profession.XpPercent | backend/api/services/profession_service.py:63-67 | The xp share is at most 100, and is 100 exactly when there is no requirement or it is met. |
| Profession.FinalPercent | backend/api/services/profession_service.py:71 | The final percentage is at most 100, and at least 0 for non-negative xp. |
| Profession.ReachedIffRequirementsMet | backend/api/services/profession_service.py:60-76 | A profession is reached exactly when every mandatory step is done and the xp requirement is met. |
| Profession.FinalPercentMonotoneInXp | backend/api/services/profession_service.py:63-71 | More experience never lowers the progress. |
| Profession.Recompute | backend/api/services/profession_service.py:17-80 | A completed row, or a profession without steps, is unchanged. Otherwise the percent is the final percentage, and the row completes exactly at 100. |
| Profession.RecomputeIdempotent | backend/api/services/profession_service.py:17-80 | Recomputing twice is recomputing once. |
| Profession.AsWrittenNeverProgresses | backend/api/services/profession_service.py:63-66 | As written, a following row with steps always raises, so it never completes. |
| Profession.AsWrittenRaisesWhereIntendedCompletes | backend/api/services/profession_service.py:63-66 | On a concrete profession, the code as written raises where the intended recomputation completes. |
| Profession.ProfessionStore.UpdateUserProfessionProgress | backend/api/services/profession_service.py:10-98 | The row becomes the recomputed one. One achievement notification is appended exactly when the row turns completed. |
| Profession.ProfessionStore.UpdateAllActiveProfessions | backend/api/services/profession_service.py:101-105 | Every FOLLOWING row of the user is recomputed, and every other row is unchanged. |
| Certificates.CertNumber | backend/api/services/certificate_service.py:8-13 | A number is "ARD-", the year, "-", four drawn characters, "-", four more. |
| Certificates.CertNumberDeterminesDraw | backend/api/services/certificate_service.py:8-13 | A number determines the year and every drawn character. |
| Certificates.Medal | backend/api/services/certificate_service.py:28-33 | GOLD from 90, SILVER from 80, BRONZE below. |
| Certificates.MedalMonotone | backend/api/services/certificate_service.py:28-33 | A higher percentage never earns a lower medal. |
| Certificates.Grant | backend/api/services/certificate_service.py:24-25 | A certificate is added exactly when its user holds none for that olympiad. |
| Certificates.GrantAllAppendsCandidates | backend/api/signals.py:89-93 | Granting only appends, and appends only candidates. |
| Certificates.GrantAllCovers | backend/api/signals.py:89-93 | After granting, every candidate's user holds a certificate for the olympiad. |
| Certificates.GrantAllKeepsOnePerOlympiad | backend/api/signals.py:89-93 | Granting keeps at most one certificate per user and olympiad. |
| Certificates.MedalCandidatesExact | backend/api/services/certificate_service.py:19-41 | The candidates are exactly the medal certificates of results that are COMPLETED and at least 70 percent. |
| Certificates.IssueCoversQualified | backend/api/services/certificate_service.py:16-44 | Afterwards every qualified user holds a certificate, and each added certificate is a qualified result's medal certificate. |
| Certificates.CompletionCertificate | backend/api/signals.py:96-111 | A DIPLOMA from 90 percent, else OLYMPIAD, graded by the percentage. |
| Certificates.CompletionCandidatesExact | backend/api/signals.py:83-113 | The first pass's candidates are the completion certificates of the COMPLETED results. |
| Certificates.ParticipationCandidatesExact | backend/api/signals.py:116-137 | The second pass's candidates are participation certificates of registered users without a completed result. |
| Certificates.SignalCoversEveryone | backend/api/signals.py:75-139 | Afterwards every completed participant and every other registrant holds a certificate for the olympiad. |
| Certificates.SignalAddsOnlyCandidates | backend/api/signals.py:75-139 | Every added certificate is a completion or participation certificate of the right user. |
| Certificates.TriggersCertificates | backend/api/signals.py:161-179 | Only a save into COMPLETED fires. A row already stored as COMPLETED never fires. A creation fires exactly when it is COMPLETED. |
| Certificates.TriggersNeedReopening | backend/api/signals.py:166-179 | A row saved again while COMPLETED never fires again. |
| Certificates.CertificateStore.IssueOlympiadCertificates | backend/api/services/certificate_service.py:16-44 | An unknown olympiad is an error and changes nothing. Otherwise the medal candidates are granted, the count added is returned, and at most one certificate per user and olympiad is kept. |
| Certificates.CertificateStore.CreateOlympiadCertificates | backend/api/signals.py:75-139 | The certificates become the grants of the completion candidates and then the participation candidates, with one per user and olympiad kept. |
| Certificates.CertificateStore.GrantCompletions | backend/api/signals.py:87-113 | The first pass grants each completion candidate in result order. |
| Certificates.CertificateStore.GrantParticipations | backend/api/signals.py:116-137 | The second pass grants each participation candidate in registration order. |
| Certificates.CertificateStore.OnOlympiadSave | backend/api/signals.py:161-179 | The routine runs exactly when the save triggers it, and otherwise nothing changes. |
| Certificates.UpdateCourseStats | backend/api/signals.py:184-198 | The count is the number of lessons, and the duration is their total seconds in whole minutes, shown as "<n> min". |
| Certificates.AddingALesson | backend/api/signals.py:190-196 | A new lesson adds one to the count and at most its own length, rounded up, to the minutes. |
| Telegram.GenerateVerificationCode | backend/api/telegram_service.py:79-81 | The code has exactly `length` characters, all digits. |
| Telegram.CodeDeterminesPicks | backend/api/telegram_service.py:79-81 | Different draws give different codes. |
| Telegram.Digits | backend/api/telegram_service.py:87 | The kept string consists of digits only and is never longer than the input. |
| Telegram.FormatPhoneNumber | backend/api/telegram_service.py:84-95 | Fewer than nine digits returns the input unchanged. Otherwise the result starts with "+". Without a leading 998 it is "+998 " and the grouped digits, 17 characters in all. |
| Telegram.OnlyDigitsMatter | backend/api/telegram_service.py:87 | Inputs with the same digits give the same display form, once at least nine digits are present. |
| Telegram.FormattedDigits | backend/api/telegram_service.py:90-94 | The display form keeps the first twelve digits after a leading 998, else 998 and the first nine. |
| Telegram.NineDigitsWith998EndInSpace | backend/api/telegram_service.py:91-92 | Nine digits beginning with 998 end in an empty group, hence a trailing space. |
| Verification.Check | backend/api/views.py:299-325 | Every call counts one attempt. Only a verified outcome marks the row, and it needs the same unexpired code within five attempts. A wrong code reports the attempts left, never below 0. |
| Verification.CheckAgreesWithIsValid | backend/api/models.py:845-854 | The endpoint accepts exactly the codes `is_valid` accepts on the row before counting. |
| Verification.GuessesAreBounded | backend/api/views.py:300-307 | At most five guesses, minus the attempts already made, ever reach the comparison. |
| Verification.CodeTable.VerifyCode | backend/api/views.py:275-330 | Missing data, or not exactly one pending row, changes nothing. Otherwise that row becomes what `Check` says, and every other row is unchanged. |
| Importer.LetterIndex | backend/api/views.py:2339-2340 | An option letter maps to its index below 5, in either case. |
| Importer.IndexOfOption | backend/api/views.py:2345-2346 | `options.index(x)` is the first position holding x. |
| Importer.FirstLooseMatch | backend/api/views.py:2350-2353 | The loop finds the first option equal to the answer ignoring case and spaces, or none when no option is. |
| Importer.NormaliseCorrectAnswer | backend/api/views.py:2337-2353 | Rules apply in order: letter, then exact text, then loose text. A changed answer is always an option index that `int()` reads back. |
| Assistant.Tags | backend/api/services/ai_service.py:110 | An empty column has no tags. Otherwise there is one tag per comma-separated piece. |
| Assistant.TagsAreLowerCase | backend/api/services/ai_service.py:110 | Every tag is already lower-case. |
| Assistant.FindFaqMatch | backend/api/services/ai_service.py:99-120 | Returns the first active entry that answers the question, or none exactly when no active entry does. |
| Assistant.TryEntry | backend/api/services/ai_service.py:109-118 | An entry answers when it is active and either a tag is a word of the question or one question text contains the other. |
| Assistant.ResolvesIgnoresCase | backend/api/services/ai_service.py:103 | Matching ignores the question's case. |
| Assistant.ResolvesIgnoresSurroundingSpace | backend/api/services/ai_service.py:103 | Matching ignores whitespace around the question. |
| Assistant.BlankQuestionMatchesEveryActiveEntry | backend/api/services/ai_service.py:115-118 | A blank question matches every active entry. |
| Assistant.InactiveNeverAnswers | backend/api/services/ai_service.py:107 | An inactive entry is never chosen. |
| Assistant.TagHitResolves | backend/api/services/ai_service.py:111-113 | A tag hit is enough, whatever the entry's question text. |
| Assistant.ActionOf | backend/api/services/ai_service.py:53-56 | An action exists exactly when the link is set, captioned by the label or "Batafsil". |
| Assistant.AssistantLog.ProcessQuery | backend/api/services/ai_service.py:34-96 | An FAQ reply comes exactly when some entry answers, from the first one. Otherwise the model's reply is given and the question queued. Two messages are logged either way. |

## Left out

- I/O is not modelled: Telegram and bot messages, notification texts, PDF and certificate file generation, and logging.
- Spreadsheet and Word parsing in `import_questions` are not modelled. Only the per-row answer normalisation is.
- Concurrency is not modelled. Each operation runs alone, and an atomic block commits as a unit.
- Floating point is not modelled. Percentages, ratios and the 1.2 prestige multiplier (taken as 6/5) are exact reals. Float rounding such as `int(x * 1.2)` in binary is not represented.
- Stored percentages: `TestResult.percentage` (`models.py:635`) and `Enrollment.progress` (`models.py:409`) are decimal columns with two decimal places and at most 999.99. The writers at `views.py:1765`, `services/olympiad_service.py:125` and `services/learning_service.py:204-207` do not round. The database rounds the value to two decimals when it saves, and a value of 1000 or more makes the save fail. The model keeps the exact ratio and has no cap. The members affected are listed on the lines below.
- Certificates.MedalCandidatesExact: the 70 percent filter (`certificate_service.py:18`) reads the stored, rounded percentage. A result of 1402 out of 2003 points (69.995...%) is stored as 70.00 and gets BRONZE; the model gives it nothing.
- Certificates.IssueCoversQualified: qualifies results by the exact percentage, not the stored two-decimal value, as for Certificates.MedalCandidatesExact.
- Certificates.Medal: is applied to the exact percentage. The source compares the stored two-decimal value at `certificate_service.py:27-30`, so 89.996% is GOLD there and SILVER here.
- Rewards.ThresholdAwards: compares a threshold prize with the exact percentage. `reward_service.py:86` compares it with the stored, rounded value.
- Engine.SubmittedRow: stores the exact percentage. As written, the per-key sum can reach 1000% or more, and then the save fails at the 999.99 cap instead of storing the inflated row.
- Learning.EnrollmentPercent: is the exact ratio. The stored progress is rounded to two decimals, so a course with 3 lessons and 2 done stores 66.67.
- Random draws in verification codes and certificate numbers are parameters, as are the clock and the language model's reply (`call_llm`).
- Telegram.Digits: `str.isdigit` is modelled for the ASCII digits only. Other Unicode digits are not recognised.
- Text.ParseInt: `int()` also accepts single underscores between digits ("1_0" reads as 10) and every Unicode decimal digit (Arabic-Indic, fullwidth and others). The model reads neither. Such submit keys, importer answers and answer-dictionary keys therefore read as "not a number".
- Text.Lower: `str.lower()` lowers every cased Unicode letter. The model lowers only A-Z and the basic Cyrillic capitals U+0400-U+042F, so other letters ('À', 'Ω', 'Ä') keep their case. Practice answers, importer options and FAQ texts that differ only in such letters compare as different.
- Text.LowerChar: the same restriction as Text.Lower, one character at a time.
- Engine.SubmittedRow: stores the corrected score, counting each question once. As written, views.py:1749-1761 stores the per-key sum, its percentage and the xp that follows from it. The two differ only when two keys read as the same question id (see Findings and `Scoring.SubmitScoreAgrees`).
- Engine.Submit: stores the corrected score and its xp, as for Engine.SubmittedRow.
- EngineDb.OlympiadDb.Submit: follows Engine.Submit, so it also stores the corrected score.
- Engine.RegisterUser: models the intended service. As written, every call for an olympiad with a participant limit raises AttributeError, because `participants_count` is not a field (see Findings).
- EngineDb.OlympiadDb.RegisterUser: follows Engine.RegisterUser, so it also models the intended service and not the AttributeError.
- Rewards.Distribute: models the intended run. As written, the read of `reward_distribution_status` raises inside the `try`, so every call returns false and changes nothing (see Findings).
- Engine.DistributeRewards: models the intended run, as Rewards.Distribute does. The as-written outcome is `Engine.DistributeRewardsAsWritten`.
- EngineDb.OlympiadDb.DistributeRewards: follows Engine.DistributeRewards, so it also models the intended run.
- Engine.PublishResults: models the intended service. As written, the PUBLISHED save happens and then the read of `auto_reward` raises, so no distribution runs and the call fails (see Findings).
- EngineDb.OlympiadDb.PublishResults: follows Engine.PublishResults, so it also models the intended service.
- Career: as written, `career_engine_service.py:2-5` imports `ProfessionLevel`, `ProfessionNode`, `UserProfessionState` and `UserNodeProgress`, which `models.py` does not define. Importing the service therefore fails, and none of its operations can run. The module models the service as it reads those models.
- Views and rewards: as written, `views.py:24-35` and `services/reward_service.py:6-14` import `WinnerPrize`, `PrizeAddress`, `LessonContent`, `Homework` and `HomeworkSubmission`. No model file defines them, so importing `views.py` or the reward service fails, and none of their operations can run. The following members are modelled as if those classes existed: Engine.Register, Engine.Submit, Engine.Result, Engine.ConfirmPayment, Engine.RejectPayment, Engine.RefundPayment, Engine.TopUp, Engine.Purchase, Engine.PurchaseCourse and Engine.PurchaseOlympiad, with their EngineDb.OlympiadDb counterparts; Engine.VisibleTo, Engine.RankingView and Engine.LeaderboardView; Ranking.StaffRanking, Ranking.LeaderboardRows, Ranking.LeaderboardRank and Ranking.ResultRank; Scoring.DetailStatus, Scoring.SubmitScoreLoop and Scoring.ScoreSubmission; Wallet.WalletStore.RequestPayout, Wallet.WalletStore.Approve and Wallet.WalletStore.MarkPaid; Verification.CodeTable.VerifyCode; Importer.NormaliseCorrectAnswer; every member of Rewards; Engine.DistributeRewards; and EngineDb.OlympiadDb.AwardPrize, RunDistribution, GrantRun, GrantPrizes and GrantNext.
- Learning.LearningStore.UpdateEnrollmentStats: the certificate number drawn from `generate_unique_id('CRT')` is not modelled.
- The enrollment-completion signal is not modelled, because its certificate helper imports `QuizAttempt`, which does not exist: `check_course_completion` and `create_course_certificate` in `backend/api/signals.py:38-73` and `145-158`.
- Learning.LearningStore.UpdateEnrollmentStats: as written, `check_course_completion` (`signals.py:145-158`) fires after every save of an enrollment whose stored progress is 100 or more. When the user has no certificate for the course, it calls `create_course_certificate`, whose import of `QuizAttempt` raises ImportError after the row is saved. This covers the first completion of a course with certificates disabled, and every later recount once completion is recorded (the model's else-branch). In those cases the source's call fails, while the model returns success.
- Career.Reward: prestige is a boolean input. As written, `hasattr(user, 'teacher_type')` is false for every `User`, so the bonus never applies.
- Career.CareerStore.GetOrCreateState: the default status of a freshly created state and node progress row is taken as initial / not completed, because the models are not declared in `models.py`.
- Assistant.AssistantLog.ProcessQuery: a message id is the message's position in the log, and the FAQ order is the table order.
- Engine.FinishTest: the streak activity and the profession recomputation that `finish_test` triggers are not composed into the olympiad tables. They are modelled on their own as `Streak.StreakStore.RecordActivity` and `Profession.ProfessionStore.UpdateAllActiveProfessions`.
- Access policy: `OlympiadViewSet.get_permissions` (`views.py:1487-1490`) grants every action outside its list to anybody, overriding the declared classes of `register`, `submit`, `result` and `ranking`. The olympiad queryset is modelled (`Engine.VisibleTo`), and the ranking override is shown by `Engine.AnonymousSeesStaffRanking`. Anonymous callers of the other actions are not modelled; the lines below name the members.
- Engine.Register: takes a signed-in user (`uid in t.users`). An anonymous caller passes the permission check, and the source then fails when it filters registrations by the anonymous user. That error path is not modelled.
- Engine.Submit: takes a signed-in user, as for Engine.Register. The anonymous caller's failure is not modelled.
- Engine.Result: takes a signed-in user, as for Engine.Register. The anonymous caller's failure is not modelled.
- EngineDb.OlympiadDb.Register: follows Engine.Register, so the anonymous caller is not modelled.
- EngineDb.OlympiadDb.Submit: follows Engine.Submit, so the anonymous caller is not modelled.
- EngineDb.OlympiadDb.ConfirmPayment: takes no requester. The source admits only `is_staff` users (`IsAdminUser`, `views.py:3108`) and finds the payment through a queryset that holds every payment only for the ADMIN role, and only the caller's own payments otherwise (`views.py:2966-2970`).
- EngineDb.OlympiadDb.RejectPayment: takes no requester; the same admin gate applies (`views.py:3160`).
- EngineDb.OlympiadDb.RefundPayment: takes no requester; the same admin gate applies (`views.py:3202`).
- Engine.ConfirmPayment: takes no requester, as for EngineDb.OlympiadDb.ConfirmPayment.
- Engine.RejectPayment: takes no requester, as for EngineDb.OlympiadDb.RejectPayment.
- Engine.RefundPayment: takes no requester, as for EngineDb.OlympiadDb.RefundPayment.
- Ranking.LeaderboardRows: the repository's tests expect an empty public leaderboard while an olympiad is ONGOING. The code does not check the status. The model follows the code, as `Ranking.OngoingLeaderboardIsPublic` shows.
- The ledger views of payments and wallets are modelled as far as the actions above change them. Listing, filtering and serialising are not modelled.
- `AIService.rate_response`, `get_or_create_conversation`, `notify_participants_olympiad_start` and `set_current_lesson` are not modelled. They only read or write single fields with no rule attached.

## Findings

| source | as written | input that shows it | evidently intended | confidence | as-written member | corrected member |
|---|---|---|---|---|---|---|
| backend/api/views.py:1749-1761 | The submit action scores each submitted key separately, so two keys that `int()` reads as the same question both score. | One one-point question with id 1, and answers `{"1": "0", "01": "0"}` with correct answer "0". Score 2, total 1, percentage 200. | Each question is scored at most once, so the score never exceeds the total. | not executed | Scoring.SubmitScoreCountsDuplicates | Scoring.SubmitScoreBounds |
| backend/api/services/wallet_service.py:20-32 | With settings rates defined as floats, `amount * rate` multiplies a Decimal by a float and raises TypeError. | Any amount, e.g. Decimal 100 with `PLATFORM_COMMISSION_RATE = 0.3`. | The 30/70 split of the amount. | not executed | Wallet.CommissionWithSettingsRaises | Wallet.CalculateCommission |
| backend/api/services/wallet_service.py:62-90 | Released sales are never marked, so each run moves every old sale again while pending covers it. | A wallet with pending 200 from two sales of 100, one older than the cutoff and one younger. The first run releases 100. The second releases the old sale again, so the balance reaches 200 and the young sale's money is released early. | Each sale is released once. | not executed | Wallet.ReleaseTwiceReleasesYoungSale | Wallet.ReleaseMarkedIdempotent |
| backend/api/services/wallet_service.py:73-90 | Each row of the query carries its own copy of the teacher's wallet (`select_related`), loaded before the loop. Each move tests and updates that copy, each save overwrites the previous one, and every move is counted. | A wallet with balance 0 and pending 200, and two sales of 100 older than the cutoff. The job returns 2 but saves balance 100 and pending 100. | Every counted move reaches the stored wallet, so the balance grows by every released sale. | not executed | Wallet.ReleaseLosesEarlierMove | Wallet.ReleaseMarkedCredits |
| backend/api/services/olympiad_service.py:15 | `olympiad.participants_count` is read, but `Olympiad` declares no such field, so with a participant limit set the call raises AttributeError. | A free olympiad with `max_participants` 10 and no registrations. A new user is refused. | Register while the olympiad has seats left. | not executed | Engine.RegisterUserAsWrittenRefusesOpenSeats | Engine.RegisterUser |
| backend/api/services/reward_service.py:55 | `olympiad.reward_distribution_status` is read, but `Olympiad` declares no such field. The exception is caught, FAILED is set as a plain attribute that `save()` ignores, and False is returned. | Any olympiad, e.g. one without prizes. The run returns False and nothing is saved. | A run that grants the strategy's prizes, completes once and refuses later runs. | not executed | Engine.DistributeAsWrittenNeverRuns | Rewards.Distribute |
| backend/api/services/olympiad_service.py:186 | `olympiad.auto_reward` is read after the PUBLISHED save, but `Olympiad` declares no such field, so the call raises after saving. | Any existing olympiad. It ends PUBLISHED, and the call fails. | Publish, then distribute rewards when automatic rewards are on. | not executed | Engine.PublishAsWrittenFailsAfterSaving | Engine.PublishResults |
| backend/api/services/learning_service.py:153-156 | The enrollment is recounted before the completed lesson's record is saved, so the last lesson is counted as not done. | A course whose published lessons are all complete except the one being finished. Progress stays below 100, and the course never completes. | Counting after saving brings the course to 100%. | not executed | Learning.StaleCountMissesFinalLesson | Learning.SavedCountCompletesCourse |
| backend/api/services/profession_service.py:63-66 | `profession.required_xp` is read but `Profession` declares no such field, so every recomputation of a following profession with steps raises. | A profession with one optional step and no experience requirement, for a new follower. The call raises instead of completing. | Progress is the minimum of the step and xp shares, and completes exactly when both requirements are met. | not executed | Profession.AsWrittenRaisesWhereIntendedCompletes | Profession.ReachedIffRequirementsMet |

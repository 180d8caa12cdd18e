# SciFlow-WP workflow core in Dafny

SciFlow-WP is a WordPress plugin that runs the scientific-paper workflow of two
congresses, Enfrute and Senco. An author submits an abstract, pays, gets a
reviewer, receives an editorial decision, is possibly selected to present, and
finally receives a certificate. Every piece of workflow state lives in post
meta (`_sciflow_status`, `_sciflow_reviewer_id`, `_sciflow_ranking_score`, …).
This project models that state and the operations that change it:

- `meta.dfy` (module `Meta`) holds the data model. The class `MetaStore`
  holds a map from post id to a `Post` record, with one field per meta key.
  It also holds the outbox: the log of the emails and action hooks the
  workflows fire. An id without a record reads as the registered meta
  defaults.
- `status_manager.dfy` (`StatusManager`) holds the transition table, the
  guarded `transition`, the status labels and the event ↔ post-type maps.
- `editorial.dfy` (`Editorial`) covers reviewer assignment, editorial
  decisions and the message history.
- `review.dfy` (`Review`) covers score validation, the weighted ranking score
  and `submit_review`.
- `submission.dfy` (`Submission`) covers the guard chain of `create`, the
  per-event quota, co-author and keyword sanitising, `confirm_payment` and
  `resubmit`.
- `ranking.dfy` (`Ranking`) holds the per-event ranking pool and the
  general ranking.
- `selection.dfy` (`Selection`) holds `select_top_works`.
- `confirmation.dfy` (`Confirmation`) covers `notify_selected_authors`,
  `confirm_presentation`, `escalate_to_next` and the `check_deadlines`
  sweep.
- `certificates.dfy` (`Certificates`) holds certificate eligibility.
- `poster_upload.dfy` (`PosterUpload`) holds the poster upload guards and
  their effect.
- `scenarios.dfy` (`Scenarios`) replays documented end-to-end runs on a
  small store: one work for the review, decision, correction and
  confirmation runs, and two works (a lapsing selection and its runner-up)
  for the deadline sweep.

Operations that update meta step by step are module-level methods that take
the store as `db: MetaStore` and name it in their `modifies` clause. Each
method is proved against a pure function of the old store: `Reviewed`,
`Submitted`, `Corrected`, `Selected` with `MarkAll`, `NotifyAll`, `Escalated`,
`SweepEvents` and `Uploaded`. Lemmas then state the workflow's promises about
those functions. Every write that happens before a fallible step is modelled
as written. For example, `submit_review` stores the review before it tries the
status transition. So a rejected transition leaves the review in place, and
the contracts say so. Some code writes `_sciflow_status` directly instead of
going through `transition`: `create`, `notify_selected_authors`,
`confirm_presentation`, `check_deadlines` and `escalate_to_next`. Those writes
are modelled directly as well.

Identity, capabilities, the clock and the WordPress services are parameters:

- `actor` is the current user id.
- `canAssign` and `canManage` are capability checks.
- `now` is a Unix timestamp.
- `registration` is the payment integration's answer.
- `reviewerRoles` is the chosen user's roles.
- `mime`, `size`, `uploadFailed` and `inserted` describe the uploaded file
  and the media calls.

### Where the code differs from the documented workflow

The model follows the code. Proved consequences:

- The transition table has no `submetido → aguardando_decisao` edge.
  `submit_review` on a `submetido` work stores the review and then always
  reports `invalid_transition` (`Review.ReviewTransitionEdges`).
- Of the seven editorial decisions, only `approve`, `reject` and
  `return_to_author` can succeed. The other four always end in
  `invalid_transition`, and the `return_to_reviewer` email can never be sent
  (`Editorial.DecisionSucceedsExactly`, `Editorial.ReturnToReviewerNeverNotifies`).
- `confirm_payment` also succeeds from `em_correcao`, because the table has
  `em_correcao → submetido` (`Submission.SubmittedIsReachedFrom`).
- The `reprovado` skip of `select_top_works` can never fire, because the
  ranking pool holds no `reprovado` work (`Selection.RejectedSkipNeverFires`).
- `select_top_works` only flags the selected works. The notification that
  follows (`notify_selected_authors`) moves a paid, approved work to
  `aguardando_confirmacao`, which is not certified. Its certificate is
  unavailable until the presentation is confirmed
  (`Certificates.NotificationSuspendsEligibility`) or until `check_deadlines`
  releases the lapsed work back to `aprovado` (`Confirmation.ReleaseOneLapsed`).
- The poster upload calls `wp_insert_attachment` without asking for a
  `WP_Error`, so a failed insert returns the id 0 and the `is_wp_error` check
  never fires. The upload then still deletes the stored poster, stores 0 as
  the poster id, moves an `aprovado` work to `poster_enviado` and returns 0
  (`PosterUpload.FailedInsertDropsPoster`).

## Model

| member | source | states |
|---|---|---|
| Meta.ReadPost | includes/meta/class-sciflow-meta.php:40-230 | a post id without stored meta reads as the registered defaults |
| StatusManager.GetStatus | includes/workflow/class-sciflow-status-manager.php:93-97 | an empty stored status reads as `rascunho`, any other is returned as stored |
| StatusManager.GetStatusLabel | includes/workflow/class-sciflow-status-manager.php:102-106 | a status with a label shows the label, any other string is shown as given |
| StatusManager.GetPostTypeForEvent | includes/workflow/class-sciflow-status-manager.php:111-118 | a post type exists exactly for `enfrute` and `senco`, and it is the event name followed by `_trabalhos` |
| StatusManager.GetEventFromPostType | includes/workflow/class-sciflow-status-manager.php:123-130 | an event exists exactly for the two post types, and the post type is that event's name followed by `_trabalhos` |
| StatusManager.ParseEvent | includes/workflow/class-sciflow-status-manager.php:111-118 | an event name is known exactly when it has a post type, and it names back to itself |
| StatusManager.Transition | includes/workflow/class-sciflow-status-manager.php:60-88 | succeeds iff the table allows current → target; on success it writes the status and fires `sciflow_status_changed` with new and old status; on failure `invalid_transition` and nothing changes |
| StatusManager.DeadEndsHaveNoEdges | includes/workflow/class-sciflow-status-manager.php:41-53 | no transition leaves `reprovado`, `poster_enviado`, `confirmado` or the three newer statuses |
| StatusManager.DeadEndsAreUnlisted | includes/workflow/class-sciflow-status-manager.php:41-53 | the dead-end statuses are exactly those without a table entry |
| StatusManager.AwaitingDecisionTargets | includes/workflow/class-sciflow-status-manager.php:48 | from `aguardando_decisao` the allowed targets are exactly `em_correcao`, `aprovado`, `reprovado` |
| StatusManager.EventPostTypeRoundTrip | includes/workflow/class-sciflow-status-manager.php:111-130 | the event → post type and post type → event maps are inverse to each other |
| StatusManager.UnlabeledStatuses | includes/workflow/class-sciflow-status-manager.php:21-36 | exactly the three newer statuses lack a label, and their label is their own name |
| Editorial.GetMessageHistory | includes/workflow/class-sciflow-editorial.php:165-169 | a stored history that is not an array reads as empty |
| Editorial.WithMessage | includes/workflow/class-sciflow-editorial.php:145-160 | appending keeps every earlier entry and adds the new one last; no other field changes |
| Editorial.AddMessage | includes/workflow/class-sciflow-editorial.php:145-160 | the post's history gains one entry with role, content, time and user |
| Editorial.AssignReviewer | includes/workflow/class-sciflow-editorial.php:25-55 | the guards in order: capability, status `submetido`/`apto_revisao`, user exists, reviewer role; then the reviewer id is written before the transition; from `apto_revisao` the transition fails with the id still written; the email is sent only on success |
| Editorial.WithEditorNotes | includes/workflow/class-sciflow-editorial.php:73-77 | the notes are stored; an `editor` history entry is added only for notes PHP reads as non-empty |
| Editorial.MakeDecision | includes/workflow/class-sciflow-editorial.php:62-111 | guards on capability and `aguardando_decisao`; notes and history are written before the decision is checked, and the decision before the transition; the emails follow only a successful transition, the poster request only for `approve` |
| Editorial.DecisionSucceedsExactly | includes/workflow/class-sciflow-editorial.php:79-96 | a table decision can succeed iff it is `approve`, `reject` or `return_to_author` |
| Editorial.ReturnToReviewerNeverNotifies | includes/workflow/class-sciflow-editorial.php:84-103 | `return_to_reviewer` can never pass its transition, so its email is never sent |
| Review.ScoreIssueIsFirst | includes/workflow/class-sciflow-review.php:116-135 | score validation fails iff some criterion fails, and it reports the first failing criterion in order |
| Review.ValidateScores | includes/workflow/class-sciflow-review.php:116-135 | succeeds iff all five criteria are present and within [0, 10], returning the scores; otherwise `missing_score`/`invalid_score` for the first failing criterion |
| Review.DefaultWeightsCount | includes/workflow/class-sciflow-review.php:150-152 | with no configured weights, the total weight is the number of criteria |
| Review.CalculateAverage | includes/workflow/class-sciflow-review.php:140-156 | the loop computes the weighted mean of the five criteria, or 0 when the weights do not sum to a positive value |
| Review.WeightedSumOfEqualScores | includes/workflow/class-sciflow-review.php:149-153 | equal scores `s` give a weighted sum of `s` times the total weight |
| Review.EqualScoresAverage | includes/workflow/class-sciflow-review.php:140-156 | when every criterion scores `s` and the weights are positive in total, the ranking score is `s` |
| Review.ScaledScoreBounds | includes/workflow/class-sciflow-review.php:151 | a score in [0, 10] times a non-negative weight lies between 0 and 10 times the weight |
| Review.WeightedSumBounds | includes/workflow/class-sciflow-review.php:149-153 | valid scores and non-negative weights bound the weighted sum by 10 times the total weight |
| Review.AverageInScoreRange | includes/workflow/class-sciflow-review.php:140-156 | valid scores and non-negative weights give a ranking score in [0, 10] |
| Review.Reviewed | includes/workflow/class-sciflow-review.php:57-68 | the review writes the scores, decision, notes, a `revisor` history entry and the weighted ranking score, and keeps status, reviewer and selection |
| Review.SubmitReview | includes/workflow/class-sciflow-review.php:29-82 | guards in order: designated reviewer, status, scores, decision, each changing nothing; then the review is written; `em_correcao` ends there with success; otherwise the transition to `aguardando_decisao` is tried and the review-complete email follows only its success |
| Review.ReviewTransitionEdges | includes/workflow/class-sciflow-review.php:70-72 | of the two statuses the review moves on from, only `em_avaliacao` has the edge to `aguardando_decisao` |
| Submission.FilterKeywords | includes/workflow/class-sciflow-submission.php:81 | the filtered keyword list is no longer than the input |
| Submission.FilterKeywordsMembers | includes/workflow/class-sciflow-submission.php:81 | a keyword survives iff it was given and PHP reads it as non-empty |
| Submission.KeepNamed | includes/workflow/class-sciflow-submission.php:301-303 | the filtered co-author list is no longer than the input |
| Submission.KeepNamedMembers | includes/workflow/class-sciflow-submission.php:301-303 | a co-author survives iff it was given with a name PHP reads as non-empty |
| Submission.SanitizedCoauthorsBounds | includes/workflow/class-sciflow-submission.php:284-304 | at most eight co-authors remain, exactly the named ones among the rows with key below 8 of a list-keyed array |
| Submission.SanitizeCoauthors | includes/workflow/class-sciflow-submission.php:284-304 | the loop, with its break at key 8 of a list-keyed array and the final filter, yields the sanitised list |
| Submission.CountSubmissionsByAuthor | includes/workflow/class-sciflow-submission.php:238-256 | the count is the number of posts of the event whose author is the user |
| Submission.NormalizeLanguage | includes/workflow/class-sciflow-submission.php:96-100 | the language is one of `pt`, `en`, `es`; an offered one is kept, anything else becomes `pt` |
| Submission.CreateAccepts | includes/workflow/class-sciflow-submission.php:31-122 | a form passes every guard iff: logged in; paid unless a draft or no payment check; known event; a new post is under the quota of 2; text of 3000 to 4000 characters and 3 to 5 keywords unless a draft; at most 6 authors; an edit targets the caller's post in an editable status |
| Submission.Submitted | includes/workflow/class-sciflow-submission.php:139-152 | the stored record has status `rascunho` for a draft and `submetido` otherwise, the event, the author, a confirmed payment, the form's title and content, the filtered keywords, the sanitised co-authors and the normalised language; every other field is kept |
| Submission.Create | includes/workflow/class-sciflow-submission.php:31-167 | the first failed guard is returned with nothing changed; a failed post write returns its error; otherwise the record is written, a correction resubmission adds an `autor` message and the new-submission email, and `sciflow_submission_created` fires |
| Submission.NewSubmissionWithinQuota | includes/workflow/class-sciflow-submission.php:51-54 | after an accepted new submission the author has at most two posts in the event, the new one among them |
| Submission.ConfirmPayment | includes/workflow/class-sciflow-submission.php:172-183 | the payment is marked confirmed whatever the status; the move to `submetido` and its email follow only when the table allows it |
| Submission.SubmittedIsReachedFrom | includes/workflow/class-sciflow-status-manager.php:45-49 | only `aguardando_pagamento` and `em_correcao` can move to `submetido` |
| Submission.Corrected | includes/workflow/class-sciflow-submission.php:202-222 | the title and content are replaced, and the keywords and co-authors only when supplied; nothing else changes |
| Submission.Resubmit | includes/workflow/class-sciflow-submission.php:188-233 | guards on author and `em_correcao`; then the corrections are written, the post returns to `submetido` and the new-submission email is sent |
| Ranking.Best | includes/ranking/class-sciflow-ranking.php:246-248 | the chosen id is in the set and precedes every other in ranking order |
| Ranking.RankSet | includes/ranking/class-sciflow-ranking.php:246-248 | lists exactly the set, once each, in ranking order |
| Ranking.QueryRankedIsPool | includes/ranking/class-sciflow-ranking.php:226-252 | an event's ranking holds exactly its works with a positive score and a ranked status, once each, by descending score |
| Ranking.GetEventRanking | includes/ranking/class-sciflow-ranking.php:19-27 | an unknown event has an empty ranking, a known one its pool ranking |
| Ranking.Merge | includes/ranking/class-sciflow-ranking.php:36-43 | the merged list is a permutation of the two inputs |
| Ranking.SortedHeadIsHighest | includes/ranking/class-sciflow-ranking.php:39-43 | the head of a score-sorted list has the highest score |
| Ranking.MergeMembers | includes/ranking/class-sciflow-ranking.php:36 | the merged list holds exactly the members of both inputs |
| Ranking.MergeSorted | includes/ranking/class-sciflow-ranking.php:39-43 | merging two score-sorted lists gives a score-sorted list |
| Ranking.MergeDistinct | includes/ranking/class-sciflow-ranking.php:36 | merging disjoint duplicate-free lists gives a duplicate-free list |
| Ranking.GeneralRankingIsSortedUnion | includes/ranking/class-sciflow-ranking.php:32-46 | the general ranking is a permutation of both event rankings, sorted by descending score, with each work once |
| Ranking.BestSame | includes/ranking/class-sciflow-ranking.php:246-248 | the best element depends only on scores |
| Ranking.RankSetSame | includes/ranking/class-sciflow-ranking.php:246-248 | the order of a set depends only on scores |
| Ranking.MergeSame | includes/ranking/class-sciflow-ranking.php:39-43 | the merge depends only on scores |
| Ranking.RankingsUnchanged | includes/ranking/class-sciflow-ranking.php:226-252 | stores that agree on event, score and status give the same rankings |
| Selection.MarkAllRead | includes/ranking/class-sciflow-ranking.php:81-97 | flagging sets the selected flag of exactly the listed works and changes nothing else |
| Selection.MarkAllAppend | includes/ranking/class-sciflow-ranking.php:59-100 | flagging in two passes equals flagging the concatenation |
| Selection.MarkAllKeepsRankData | includes/ranking/class-sciflow-ranking.php:81-97 | flagging changes no ranking input |
| Selection.SelectForEvent | includes/ranking/class-sciflow-ranking.php:59-85 | one event pass appends that event's picks and flags them |
| Selection.TopUpGeneral | includes/ranking/class-sciflow-ranking.php:88-100 | the general pass appends the ranked works not yet taken, up to the quota, and flags them |
| Selection.SelectTopWorks | includes/ranking/class-sciflow-ranking.php:54-103 | returns the per-event picks of both events followed by the general top-up, and flags exactly those works; the shipped quotas are `DefaultPerEvent` (6) and `DefaultGeneral` (3) |
| Selection.EventPicksWithin | includes/ranking/class-sciflow-ranking.php:63-84 | an event pass only takes ranked works |
| Selection.SelectionSteps | includes/ranking/class-sciflow-ranking.php:59-88 | the flags set by earlier passes change neither the later rankings nor the later picks |
| Selection.PicksOutsideUnchanged | includes/ranking/class-sciflow-ranking.php:63-84 | flagging works outside a ranking does not change that ranking's picks |
| Selection.EventPicksFrame | includes/ranking/class-sciflow-ranking.php:63-84 | an event pass reads only the ranked works |
| Selection.EventPicksShape | includes/ranking/class-sciflow-ranking.php:63-84 | an event pass takes at most the quota, each work once |
| Selection.TopUpShape | includes/ranking/class-sciflow-ranking.php:91-100 | the top-up takes at most the quota, each once, all ranked and none already taken |
| Selection.DistinctConcat | includes/ranking/class-sciflow-ranking.php:94 | joining disjoint duplicate-free lists keeps them duplicate-free |
| Selection.SelectedShape | includes/ranking/class-sciflow-ranking.php:54-103 | at most `perEvent` per event plus `general` works, each once, and every one ends flagged |
| Selection.EventPicksPrefix | includes/ranking/class-sciflow-ranking.php:63-84 | without a `reprovado` work, an event pass takes the first `perEvent` ranked works |
| Selection.RejectedSkipNeverFires | includes/ranking/class-sciflow-ranking.php:77-79 | the ranking holds no `reprovado` work, so each event pass takes a prefix of the ranking |
| Selection.SelectionIsIdempotent | includes/ranking/class-sciflow-ranking.php:54-103 | a second run with the same quotas returns the same works and changes nothing |
| Confirmation.NotifySelectedAuthors | includes/ranking/class-sciflow-ranking.php:108-124 | each listed approved or poster-sent work gets the deadline now + 3 days, status `aguardando_confirmacao` and an email; others are skipped |
| Confirmation.NotifyAllEffect | includes/ranking/class-sciflow-ranking.php:113-123 | exactly the listed approved or poster-sent works change, to awaiting with the deadline; every other work is as it was |
| Confirmation.OwedNoticesShape | includes/ranking/class-sciflow-ranking.php:113-123 | the owed emails are confirmation requests, one for each listed work that was approved or poster-sent before the round, and none twice |
| Confirmation.NotifyAllOutbox | includes/ranking/class-sciflow-ranking.php:113-123 | the emails sent are exactly the owed ones in list order, after the earlier outbox |
| Confirmation.NotifyAllNotices | includes/ranking/class-sciflow-ranking.php:113-123 | a listed work gets a confirmation request iff it was approved or poster-sent, each work at most one, even when listed twice, and no other email is sent |
| Confirmation.ConfirmPresentation | includes/ranking/class-sciflow-ranking.php:129-147 | only the author, only from `aguardando_confirmacao`; then confirmed flag set and status `confirmado` |
| Confirmation.FirstCandidateIsFirst | includes/ranking/class-sciflow-ranking.php:196-210 | escalation finds nothing iff the ranking has no candidate, and otherwise the first candidate |
| Confirmation.EscalateToNext | includes/ranking/class-sciflow-ranking.php:191-221 | the loop promotes the first candidate, if any: selected, deadline now + 3 days, awaiting confirmation, email |
| Confirmation.NewestFirst | includes/ranking/class-sciflow-ranking.php:157-167 | the awaiting query lists each matching id once |
| Confirmation.ReleaseIfLapsed | includes/ranking/class-sciflow-ranking.php:169-183 | one awaiting work: released and escalated when its deadline has passed, untouched otherwise |
| Confirmation.ReleaseLapsed | includes/ranking/class-sciflow-ranking.php:169-184 | the inner loop applies the release step to each awaiting work in query order |
| Confirmation.CheckDeadlines | includes/ranking/class-sciflow-ranking.php:152-186 | the sweep over both events, Enfrute first, each over its own query |
| Confirmation.EscalatedTouchesOnlyCandidate | includes/ranking/class-sciflow-ranking.php:196-220 | escalation changes at most one work, a ranked candidate of the event |
| Confirmation.ReleaseOneLapsed | includes/ranking/class-sciflow-ranking.php:175-182 | a lapsed work ends deselected and back at `aprovado`, whatever the escalation picks |
| Confirmation.ReleaseOneFrame | includes/ranking/class-sciflow-ranking.php:175-182 | a release step changes no non-approved work other than a lapsed one |
| Confirmation.ReleaseAllFrame | includes/ranking/class-sciflow-ranking.php:169-184 | one event's pass leaves a settled work unchanged |
| Confirmation.SweepEventsFrame | includes/ranking/class-sciflow-ranking.php:156-185 | the sweep over any events leaves a settled work unchanged |
| Confirmation.CheckDeadlinesSparesSettled | includes/ranking/class-sciflow-ranking.php:152-186 | `check_deadlines` leaves alone every work that is neither approved nor awaiting past its deadline |
| Certificates.EventLabel | includes/certificates/class-sciflow-certificates.php:49-58 | each event prints a non-empty label that opens with its own name (`Enfrute`, `Senco`); a missing event prints empty |
| Certificates.Generate | includes/certificates/class-sciflow-certificates.php:37-61 | `not_eligible` iff the work is not eligible; otherwise the certificate carries the title, author, co-authors and the event's label |
| Certificates.UnpaidNeverEligible | includes/certificates/class-sciflow-certificates.php:22-25 | without a confirmed payment there is no certificate |
| Certificates.PaidEligibility | includes/certificates/class-sciflow-certificates.php:27-28 | when paid, eligible iff `confirmado`, `aprovado` or `poster_enviado`; `aguardando_confirmacao` is not eligible |
| Certificates.EligibilityIgnoresPresentationFlag | includes/certificates/class-sciflow-certificates.php:16-29 | the confirmed-presentation flag does not affect eligibility |
| Certificates.EligibleScoredWorksAreRanked | includes/certificates/class-sciflow-certificates.php:28 | an eligible work with a positive score is in its event's ranking |
| Certificates.NotificationSuspendsEligibility | includes/certificates/class-sciflow-certificates.php:28 | a paid approved work loses eligibility when notified for selection and regains it on confirmation |
| Certificates.UploadKeepsEligibility | includes/certificates/class-sciflow-certificates.php:28 | a poster upload keeps an eligible work eligible |
| PosterUpload.Rejection | includes/upload/class-sciflow-poster-upload.php:36-73 | the guards in order: author, status, PDF, size, upload; each error iff its guard fails and every earlier one passes |
| PosterUpload.UploadAccepts | includes/upload/class-sciflow-poster-upload.php:36-73 | an upload passes iff the author sends a PDF of at most 10485760 bytes for an `aprovado` or `poster_enviado` work and the upload succeeds |
| PosterUpload.SizeLimitIsInclusive | includes/upload/class-sciflow-poster-upload.php:56-58 | exactly 10 MB passes, one byte more gives `file_too_large` |
| PosterUpload.Uploaded | includes/upload/class-sciflow-poster-upload.php:93-98 | the poster id becomes the new attachment, and an approved or poster-sent work ends `poster_enviado`; nothing else changes |
| PosterUpload.UploadLifecycle | includes/upload/class-sciflow-poster-upload.php:86-98 | the status change is a legal edge; a replacement upload passes on the same terms and only the latest poster id remains |
| PosterUpload.FailedInsertDropsPoster | includes/upload/class-sciflow-poster-upload.php:76-98 | a failed insert (id 0) past the guards still deletes the stored poster, stores 0 and leaves the work `poster_enviado` |
| PosterUpload.Upload | includes/upload/class-sciflow-poster-upload.php:34-101 | each failed guard returns its error and changes nothing; past the guards, for any insert id including the failure id 0, the old poster is deleted, the id stored and returned, and `aprovado` moves to `poster_enviado` |
| Scenarios.UniformIsValid | includes/workflow/class-sciflow-review.php:116-135 | a uniform score card covers every criterion |
| Scenarios.ReviewStep | includes/workflow/class-sciflow-review.php:29-82 | a valid review of an `em_avaliacao` work succeeds and moves it to `aguardando_decisao` |
| Scenarios.DecisionStep | includes/workflow/class-sciflow-editorial.php:62-111 | a table decision succeeds iff its transition is allowed, and the status follows |
| Scenarios.ReviewAfterReturnToReviewer | test-submit.php:11-55 | review succeeds; `return_to_reviewer` fails on the table; the second review gets `invalid_status`; the work stays `aguardando_decisao` |
| Scenarios.ReviewToDecision | includes/workflow/class-sciflow-editorial.php:25-111 | assign, review with all scores 8 and approve all succeed; the ranking score is 8 and the work ends `aprovado` |
| Scenarios.CorrectionLoop | includes/workflow/class-sciflow-submission.php:188-233 | `return_to_author` gives `em_correcao`; only the author may resubmit, which gives `submetido` |
| Scenarios.ConfirmationByAuthor | includes/ranking/class-sciflow-ranking.php:129-147 | a non-author is refused; the author's confirmation gives `confirmado` with the flag set |
| Scenarios.RunnerUpIsNext | includes/ranking/class-sciflow-ranking.php:196-210 | with the lapsed work excluded, the runner-up is the first candidate |
| Scenarios.SingleAwaiting | includes/ranking/class-sciflow-ranking.php:157-167 | the awaiting query finds exactly the one awaiting work |
| Scenarios.NoneAwaiting | includes/ranking/class-sciflow-ranking.php:157-167 | the awaiting query is empty when nothing of the event awaits |
| Scenarios.EscalationSweep | includes/ranking/class-sciflow-ranking.php:152-221 | a lapsed selection returns to `aprovado`, and the runner-up is promoted with a fresh deadline and one email |
| Scenarios.EscalationAfterLapse | includes/ranking/class-sciflow-ranking.php:152-221 | `check_deadlines` four days after selection releases the lapsed work and promotes the runner-up |

## Left out

- Sanitisers (`sanitize_text_field`, `wp_kses_post`, `sanitize_email`, `wp_strip_all_tags`) are identities. The form carries the stripped text.
- `round($val, 2)` on scores and `round(…, 4)` on the ranking score are not modelled. Scores and the ranking score are exact reals.
- `floatval` parsing of score strings is out of scope. Scores arrive as reals or are missing.
- Review.CalculateAverage: does not model the rounding to four decimals.
- WP_Query leaves the order of equal ranking scores open. The model orders ties by ascending post id.
- The default query order of `check_deadlines` is modelled as newest first by descending post id.
- The confirmation deadline is stored as an integer timestamp, not as a formatted date string. A deadline that does not parse is the timestamp 0.
- Emails and action hooks become `Notice` entries in the outbox. Their bodies and recipients are not modelled.
- The current time in message-history entries is the `now` parameter.
- Certificate rendering, the PDF or HTML file and the certificate directory are not modelled. `Generate` returns the data the certificate shows. The author's display name comes from a user lookup, so it is represented by the author id.
- File checks (`finfo`), `wp_handle_upload`, `wp_insert_attachment` and the deletion of the old attachment are inputs or notices. An attachment deletion is logged as `AttachmentDeleted`.
- `get_reviewer_articles`, `get_event_articles`, `get_user_submissions` and `get_reviewers` are plain listing queries with no workflow logic.
- The AJAX handlers, shortcodes, admin pages, e-mail templates, payment gateways, WooCommerce and activation code are outside the workflow core. They are not part of this model.
- Submission.Create: requires that `newId` is fresh, which stands for `wp_insert_post` handing out a new id. Updating an existing post is modelled through `postId`.
- Submission.Create: the form's keyword and co-author lists arrive as sequences. A value that is not an array reaches the model as an empty list.
- Selection.SelectTopWorks: the loop over the two events is written as two calls, Enfrute then Senco. The quotas are parameters; the PHP defaults of 6 per event and 3 overall, which the admin page uses, are the constants `DefaultPerEvent` and `DefaultGeneral`.
- Meta.Exists: a WordPress post and its meta are one record here. `get_post` finding the post is modelled as the event meta being present, `post_author` as `_sciflow_author_id`, and the post type as `_sciflow_event`. Post status (trash, auto-draft) is not modelled. Two consequences: editing the caller's own ordinary, non-SciFlow post is refused as `invalid_post`, where PHP passes the ownership test and refuses it as `already_submitted`; and the per-event quota counts every record with matching meta, so a trashed submission still uses one of the two slots, where the `'post_status' => 'any'` query of `count_submissions_by_author` leaves trashed posts out.
- Confirmation.CheckDeadlines: the loop over the two events is the constant order Enfrute, Senco.
- Submission.SanitizeCoauthors: the break is modelled on the position in the list. PHP breaks on the array key, which equals the position only for a list-keyed array, as the form sends. A POSTed array with other keys (`coauthors[9]` before `coauthors[0]`) is not modelled, nor are the keys `array_filter` keeps.
- PosterUpload.Upload: the `is_wp_error` branch after the attachment insert is left out, because the insert is called without asking for a `WP_Error` and reports failure as the id 0, which is modelled.
- Submission.Resubmit: an empty keyword list stands for "not supplied", as `!empty()` treats it.

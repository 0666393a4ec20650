TestResult.DisplayName,TestResult.Outcome,TestResult.Duration,TestResult.ResourceCount,RandomSeed
Site.OutputPath (correctness),Passed,00:00:01.9389439,5161283,5
Site.PageOutputsLanguage (correctness),Passed,00:00:00.7572861,2013611,5
Site.PageOutputs (well-formedness),Passed,00:00:00.5658384,120997,5
Site.PageOutputsMembers (well-formedness),Passed,00:00:00.5014304,97866,5
Site.PageOutputsAt (correctness),Passed,00:00:00.4065359,1065004,5
Site.PageOutputsMembers (correctness),Passed,00:00:00.3555706,291801,5
Site.PageOutputsLength (correctness),Passed,00:00:00.2095618,205138,5
Site.PageOutputsAt (well-formedness),Passed,00:00:00.1865531,116508,5
Site.PageOutputsLength (well-formedness),Passed,00:00:00.1857996,93545,5
Site.OutputPathsDistinct (correctness),Passed,00:00:00.1796669,359098,5
Site.PageOutputsCons (correctness),Passed,00:00:00.1582256,139165,5
Site.PageOutputOfRoute (well-formedness),Passed,00:00:00.1553782,118195,5
Site.PageOutputOfRoute (correctness),Passed,00:00:00.1328312,208150,5
Site.OutputPathsDistinct (well-formedness),Passed,00:00:00.1309046,113395,5
Site.PageOutputsLanguage (well-formedness),Passed,00:00:00.1217609,97315,5
Site.OutputPath (well-formedness),Passed,00:00:00.1203959,117078,5
Site.PageOutputsCons (well-formedness),Passed,00:00:00.1176207,154372,5
Site.PageOutput (well-formedness),Passed,00:00:00.1026230,69316,5
Site.OutputRoutesDistinct (correctness),Passed,00:00:00.0421850,57671,5
Site.OutputRoutesDistinct (well-formedness),Passed,00:00:00.0213056,18443,5

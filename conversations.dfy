/**
 * The in-memory conversation state store (ConversationService): one
 * ConversationState per phone number, read, upserted and removed by key.
 */
module Conversations {
  import opened Domain

  /** Models/ConversationState.cs, ConversationStep */
  datatype Step =
    | Initial
    | AwaitingWorker
    | AwaitingDate
    | AwaitingTime
    | AwaitingServiceType
    | ConfirmingAppointment
    | CancellingAppointment

  /** Models/ConversationState.cs; LastUpdated is a UTC timestamp supplied by the caller. */
  datatype ConversationState = ConversationState(
    phoneNumber: string,
    currentStep: Step,
    selectedWorkerId: Option<int>,
    selectedWorkerName: Option<string>,
    selectedDate: Option<Date>,
    selectedTime: Option<TimeOfDay>,
    serviceType: Option<string>,
    lastUpdated: int)

  /** A new state for a phone number at a step, with nothing selected. */
  function Fresh(phone: string, step: Step, stamp: int): (st: ConversationState)
    ensures st.phoneNumber == phone && st.currentStep == step
    ensures st.selectedWorkerId.None? && st.selectedWorkerName.None? && st.selectedDate.None?
    ensures st.selectedTime.None? && st.serviceType.None?
  {
    ConversationState(phone, step, None, None, None, None, None, stamp)
  }

  /** GetStateAsync: the state stored under the phone number, or None. */
  function Lookup(states: map<string, ConversationState>, phone: string): (r: Option<ConversationState>)
    ensures r.Some? <==> phone in states
    ensures r.Some? ==> r.value == states[phone]
  {
    if phone in states then Some(states[phone]) else None
  }

  /** UpdateStateAsync: the state, stamped with the time of the call, stored under its own phone number. */
  function Put(states: map<string, ConversationState>, st: ConversationState, stamp: int): (r: map<string, ConversationState>)
    ensures Lookup(r, st.phoneNumber) == Some(st.(lastUpdated := stamp))
    ensures forall phone :: phone != st.phoneNumber ==> Lookup(r, phone) == Lookup(states, phone)
    ensures r.Keys == states.Keys + {st.phoneNumber}
  {
    states[st.phoneNumber := st.(lastUpdated := stamp)]
  }

  /** ClearStateAsync: the entry for the phone number is gone; an absent key changes nothing. */
  function Remove(states: map<string, ConversationState>, phone: string): (r: map<string, ConversationState>)
    ensures Lookup(r, phone).None?
    ensures forall other :: other != phone ==> Lookup(r, other) == Lookup(states, other)
    ensures phone !in states ==> r == states
  {
    states - {phone}
  }

  /** The latest Update for a key wins over every earlier one. */
  lemma PutPut(states: map<string, ConversationState>, a: ConversationState, b: ConversationState, s1: int, s2: int)
    requires a.phoneNumber == b.phoneNumber
    ensures Put(Put(states, a, s1), b, s2) == Put(states, b, s2)
  {
  }

  /** Clearing undoes an Update of a key that had no state. */
  lemma RemovePut(states: map<string, ConversationState>, st: ConversationState, stamp: int)
    requires st.phoneNumber !in states
    ensures Remove(Put(states, st, stamp), st.phoneNumber) == states
  {
  }

  class ConversationStore {
    var states: map<string, ConversationState>

    constructor ()
      ensures states == map[]
    {
      states := map[];
    }

    method GetState(phone: string) returns (state: Option<ConversationState>)
      ensures state == Lookup(states, phone)
    {
      if phone in states {
        state := Some(states[phone]);
      } else {
        state := None;
      }
    }

    method UpdateState(st: ConversationState, stamp: int)
      modifies this
      ensures states == Put(old(states), st, stamp)
    {
      var stamped := st.(lastUpdated := stamp);
      states := states[stamped.phoneNumber := stamped];
    }

    method ClearState(phone: string)
      modifies this
      ensures states == Remove(old(states), phone)
    {
      if phone in states {
        states := states - {phone};
      }
    }
  }
}
